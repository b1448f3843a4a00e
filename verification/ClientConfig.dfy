/** The client's config: named agents, how one is registered, and how a name becomes a target. */
module ClientConfig {
  import opened Prelude
  import Invite

  datatype Transport = OverConnect | OverWebSocket

  datatype Agent = Agent(url: string, token: string, user: string, insecure: bool, fingerprint: string, port: int,
                         transport: string)

  datatype Target = Target(name: string, url: string, token: string, user: string, insecure: bool, transport: Transport,
                           fingerprint: string, port: int)

  datatype Refusal =
    | NoName | Unknown | Exists | BadInvite(why: Invite.Failure) | NoUrl | BadTransport | BadPort | NotSaved

  type Agents = map<string, Agent>

  function ParseTransport(s: string): Option<Transport> {
    if s == "" || s == "connect" then Some(OverConnect)
    else if s == "ws" then Some(OverWebSocket)
    else None
  }

  function Resolve(agents: Agents, name: string): Result<Target, Refusal> {
    if name !in agents then Err(Unknown)
    else
      var a := agents[name];
      if a.url == "" then Err(NoUrl)
      else if ParseTransport(a.transport).None? then Err(BadTransport)
      else if a.port < 0 || a.port > 65535 then Err(BadPort)
      else
        var transport := ParseTransport(a.transport).value;
        Ok(Target(name, a.url, a.token, a.user, a.insecure, transport, a.fingerprint, a.port))
  }

  /** The flags a command gives for one connection. */
  datatype Overrides = Overrides(token: string, insecure: bool, fingerprint: string, transport: string)

  /** resolveTarget: what the config says, overridden by the flags that are set. */
  function TargetFor(agents: Agents, name: string, o: Overrides): Result<Target, Refusal> {
    if name == "" then Err(NoName)
    else
      var r := Resolve(agents, name);
      if r.Err? then r
      else if o.transport != "" && ParseTransport(o.transport).None? then Err(BadTransport)
      else
        var t := r.value;
        Ok(Target(t.name, t.url,
                  if o.token != "" then o.token else t.token,
                  t.user,
                  t.insecure || o.insecure,
                  if o.transport != "" then ParseTransport(o.transport).value else t.transport,
                  if o.fingerprint != "" then o.fingerprint else t.fingerprint,
                  t.port))
  }

  // ---------------------------------------------------------------- registering

  /** What one `client add` is given: its flags, the invite text if any, the answer its prompt for a URL would
      get, and the fingerprint its look at the server would see (empty when there is none). */
  datatype Add = Add(name: string, force: bool, flags: Agent, from: string, asked: string, seen: string)

  function FromInvite(flags: Agent, i: Invite.Invite): Agent {
    flags.(url := i.url,
           token := if flags.token == "" then i.token else flags.token,
           user := if flags.user == "" then i.user else flags.user,
           fingerprint := if flags.fingerprint == "" then i.tlsFingerprint else flags.fingerprint)
  }

  function Entry(a: Add): (r: Result<Agent, Refusal>)
    ensures r.Ok? ==> r.value.url != ""
  {
    if a.from != "" then
      var i := Invite.Decode(a.from);
      if i.Err? then Err(BadInvite(i.error)) else Ok(FromInvite(a.flags, i.value))
    else
      var url := if a.flags.url == "" then a.asked else a.flags.url;
      if url == "" then Err(NoUrl)
      else if a.flags.fingerprint == "" && !a.flags.insecure then Ok(a.flags.(url := url, fingerprint := a.seen))
      else Ok(a.flags.(url := url))
  }

  /** runAdd: the entry is saved before it is resolved. */
  function AddStep(agents: Agents, a: Add): (Agents, Result<Target, Refusal>) {
    if a.name == "" then (agents, Err(NoName))
    else if a.name in agents && !a.force then (agents, Err(Exists))
    else
      var e := Entry(a);
      if e.Err? then (agents, Err(e.error))
      else (agents[a.name := e.value], Resolve(agents[a.name := e.value], a.name))
  }

  /** The registrations that reach the save. */
  predicate Saves(agents: Agents, a: Add) {
    a.name != "" && (a.name in agents ==> a.force) && Entry(a).Ok?
  }

  function AddAll(agents: Agents, adds: seq<Add>): Agents
    decreases |adds|
  {
    if adds == [] then agents else AddAll(AddStep(agents, adds[0]).0, adds[1..])
  }

  class Config {
    var agents: Agents
    /** The JSON file: None until first written. */
    var disk: Option<Agents>

    constructor (file: Option<Agents>)
      ensures disk == file
      ensures agents == if file.Some? then file.value else map[]
    {
      disk := file;
      agents := if file.Some? then file.value else map[];
    }

    method Set(name: string, a: Agent)
      modifies this`agents
      ensures agents == old(agents)[name := a]
    {
      agents := agents[name := a];
    }

    /** The file is replaced whole or, if writing fails, not at all. */
    method Save(writable: bool) returns (ok: bool)
      modifies this`disk
      ensures ok == writable && disk == if ok then Some(agents) else old(disk)
    {
      if writable {
        disk := Some(agents);
      }
      return writable;
    }

    method Register(a: Add, writable: bool) returns (r: Result<Target, Refusal>)
      modifies this
      ensures agents == AddStep(old(agents), a).0
      ensures r == if Saves(old(agents), a) && !writable then Err(NotSaved) else AddStep(old(agents), a).1
      ensures disk == if Saves(old(agents), a) && writable then Some(agents) else old(disk)
    {
      if a.name == "" {
        return Err(NoName);
      }
      if a.name in agents && !a.force {
        return Err(Exists);
      }
      var entry := a.flags;
      var fromInvite := false;
      if a.from != "" {
        var i := Invite.Decode(a.from);
        if i.Err? {
          return Err(BadInvite(i.error));
        }
        fromInvite := true;
        entry := entry.(url := i.value.url);
        if entry.token == "" {
          entry := entry.(token := i.value.token);
        }
        if entry.user == "" {
          entry := entry.(user := i.value.user);
        }
        if entry.fingerprint == "" {
          entry := entry.(fingerprint := i.value.tlsFingerprint);
        }
      }
      if entry.url == "" {
        entry := entry.(url := a.asked);
      }
      if entry.url == "" {
        return Err(NoUrl);
      }
      if !fromInvite && entry.fingerprint == "" && !entry.insecure && a.seen != "" {
        entry := entry.(fingerprint := a.seen);
      }
      Set(a.name, entry);
      var saved := Save(writable);
      if !saved {
        return Err(NotSaved);
      }
      r := Resolve(agents, a.name);
    }
  }

  /** Over any sequence of registrations, an entry changes only by one that was forced for that very name. */
  lemma {:induction false} KeptUnlessForced(agents: Agents, adds: seq<Add>, name: string)
    requires name in agents
    requires forall a :: a in adds && a.name == name ==> !a.force
    ensures name in AddAll(agents, adds) && AddAll(agents, adds)[name] == agents[name]
    decreases |adds|
  {
    if adds != [] {
      assert adds[0] in adds;
      KeptUnlessForced(AddStep(agents, adds[0]).0, adds[1..], name);
    }
  }

  /** A failed registration leaves the config as it was, exactly unless the entry it wrote has a transport or port
      that does not resolve: the entry was saved first. */
  lemma FailedAddExactly(agents: Agents, a: Add)
    requires AddStep(agents, a).1.Err?
    requires a.name in agents ==> Entry(a) != Ok(agents[a.name])
    ensures AddStep(agents, a).0 != agents <==>
      Saves(agents, a) && (ParseTransport(a.flags.transport).None? || a.flags.port < 0 || a.flags.port > 65535)
  {
    if Saves(agents, a) {
      assert AddStep(agents, a).0[a.name] == Entry(a).value;
    }
  }

  /** The flag if it was given. */
  function Or(flag: string, otherwise: string): string {
    if flag != "" then flag else otherwise
  }

  /** Which registrations succeed, exactly. */
  lemma AcceptedExactly(agents: Agents, a: Add)
    ensures AddStep(agents, a).1.Ok? <==>
      && a.name != "" && (a.name in agents ==> a.force)
      && (if a.from != "" then Invite.Decode(a.from).Ok? else a.flags.url != "" || a.asked != "")
      && a.flags.transport in ["", "connect", "ws"] && 0 <= a.flags.port <= 65535
    ensures AddStep(agents, a).1 == Err(NoName) <==> a.name == ""
    ensures AddStep(agents, a).1 == Err(Exists) <==> a.name != "" && a.name in agents && !a.force
    ensures forall why :: AddStep(agents, a).1 == Err(BadInvite(why)) <==>
      a.name != "" && (a.name in agents ==> a.force) && a.from != "" && Invite.Decode(a.from) == Err(why)
    ensures AddStep(agents, a).1 == Err(NoUrl) <==>
      a.name != "" && (a.name in agents ==> a.force) && a.from == a.flags.url == a.asked == ""
  {
    hide Invite.Decode;
    if Saves(agents, a) {
      assert AddStep(agents, a).0[a.name] == Entry(a).value;
    }
  }

  /** An accepted registration without an invite: the URL is the flag's or the one asked for, and the fingerprint the
      flag's or, unless the agent is to be trusted blindly, the one seen on the server. */
  lemma FlagsAreKept(agents: Agents, a: Add)
    requires a.from == "" && AddStep(agents, a).1.Ok?
    ensures var t := AddStep(agents, a).1.value;
      && t.name == a.name && t.url == Or(a.flags.url, a.asked)
      && t.fingerprint == (if a.flags.insecure then a.flags.fingerprint else Or(a.flags.fingerprint, a.seen))
      && t.token == a.flags.token && t.user == a.flags.user && t.insecure == a.flags.insecure
      && t.port == a.flags.port && (t.transport.OverWebSocket? <==> a.flags.transport == "ws")
  {
    assert AddStep(agents, a).0[a.name] == Entry(a).value;
  }

  /** What a command connects to, exactly: a name resolves if it is there with a URL, a port in range and a known
      transport, and so does the transport flag; flags win over the config. */
  lemma TargetExactly(agents: Agents, name: string, o: Overrides)
    ensures TargetFor(agents, name, o).Ok? <==>
      && name != "" && name in agents && agents[name].url != "" && 0 <= agents[name].port <= 65535
      && agents[name].transport in ["", "connect", "ws"] && o.transport in ["", "connect", "ws"]
    ensures TargetFor(agents, name, o).Ok? ==>
      var (t, a) := (TargetFor(agents, name, o).value, agents[name]);
      && t.name == name && t.url == a.url && t.user == a.user && t.port == a.port
      && t.token == Or(o.token, a.token) && t.fingerprint == Or(o.fingerprint, a.fingerprint)
      && (t.insecure <==> a.insecure || o.insecure)
      && (t.transport.OverWebSocket? <==> Or(o.transport, a.transport) == "ws")
    ensures TargetFor(agents, name, o) == Err(NoName) <==> name == ""
    ensures TargetFor(agents, name, o) == Err(Unknown) <==> name != "" && name !in agents
    ensures TargetFor(agents, name, o) == Err(NoUrl) <==> name != "" && name in agents && agents[name].url == ""
    ensures TargetFor(agents, name, o) == Err(BadPort) <==>
      && name != "" && name in agents && agents[name].url != ""
      && agents[name].transport in ["", "connect", "ws"] && !(0 <= agents[name].port <= 65535)
  {
  }

  /** An accepted registration by invite: nothing of the invite is lost but what a flag overrides. */
  lemma InviteIsKept(agents: Agents, a: Add, i: Invite.Invite, before: string, after: string)
    requires i.url != "" && AllSpace(before) && AllSpace(after)
    requires a.from == before + Invite.Text(i) + after
    requires AddStep(agents, a).1.Ok?
    ensures var t := AddStep(agents, a).1.value;
      && t.name == a.name && t.url == i.url
      && t.token == Or(a.flags.token, i.token) && t.user == Or(a.flags.user, i.user)
      && t.fingerprint == Or(a.flags.fingerprint, i.tlsFingerprint)
      && t.insecure == a.flags.insecure && t.port == a.flags.port
      && (t.transport.OverWebSocket? <==> a.flags.transport == "ws")
  {
    Invite.RoundTrip(i, before, after);
    Invite.TextHasNoSpace(i);
    assert a.from != "";
  }
}
