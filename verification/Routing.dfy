/** From --endpoint flags to what a tunnel is spliced onto: parseEndpoints, NewService, Resolve, Handle, and the
    two doors in front of them. */
module Routing {
  import opened Prelude

  const SHELL := "shell"

  datatype Refusal = BadPair(flag: string) | Reserved(name: string) | NotListed(name: string) | NoServer

  /** strings.Cut around the first '=': the text before and after it. */
  function Cut(v: string): Option<(string, string)> {
    if v == "" then None
    else if v[0] == '=' then Some(("", v[1..]))
    else
      var r := Cut(v[1..]);
      if r.None? then None else Some(([v[0]] + r.value.0, r.value.1))
  }

  /** Cut splits at the first '=' there is, and nowhere else. */
  lemma {:induction false} CutMeaning(v: string)
    ensures Cut(v).None? <==> '=' !in v
    ensures Cut(v).Some? ==> var (name, addr) := Cut(v).value; v == name + "=" + addr && '=' !in name
  {
    if v != "" && v[0] != '=' {
      CutMeaning(v[1..]);
      assert v == [v[0]] + v[1..];
    }
  }

  predicate GoodFlag(v: string) {
    Cut(v).Some? && Cut(v).value.0 != "" && Cut(v).value.1 != "" && Cut(v).value.0 != SHELL
  }

  function FlagError(v: string): Refusal
    requires !GoodFlag(v)
  {
    if Cut(v).None? || Cut(v).value.0 == "" || Cut(v).value.1 == "" then BadPair(v) else Reserved(Cut(v).value.0)
  }

  /** Why a flag is refused: as reserved if it gives the shell an address, and as no pair otherwise. */
  lemma RefusedAs(v: string)
    requires !GoodFlag(v)
    ensures FlagError(v) == if "shell=" < v then Reserved("shell") else BadPair(v)
  {
    CutMeaning(v);
    if "shell=" <= v {
      assert v == "shell" + "=" + v[6..];
      CutAt("shell", v[6..]);
    }
  }

  lemma {:induction false} CutAt(name: string, addr: string)
    requires '=' !in name
    ensures Cut(name + "=" + addr) == Some((name, addr))
  {
    var v := name + "=" + addr;
    if name == "" {
      assert v == ['='] + addr;
    } else {
      assert v[1..] == name[1..] + "=" + addr && v[0] == name[0] && name[0] in name;
      assert name == [name[0]] + name[1..];
      CutAt(name[1..], addr);
    }
  }

  ghost predicate FirstBad(vals: seq<string>, i: int) {
    0 <= i < |vals| && !GoodFlag(vals[i]) && forall j :: 0 <= j < i ==> GoodFlag(vals[j])
  }

  /** The flags folded into the allowlist: later flags override earlier ones, and the first bad one is reported. */
  method ParseEndpoints(vals: seq<string>) returns (r: Result<map<string, string>, Refusal>)
    ensures r.Ok? <==> forall v :: v in vals ==> GoodFlag(v)
    ensures r.Ok? ==> forall name, addr :: Maps(r.value, name, addr) <==> LastFor(vals, name, addr)
    ensures r.Err? ==> exists i :: FirstBad(vals, i) && r.error == FlagError(vals[i])
  {
    var out: map<string, string> := map[];
    var i := 0;
    while i < |vals|
      invariant 0 <= i <= |vals|
      invariant forall j :: 0 <= j < i ==> GoodFlag(vals[j])
      invariant forall name, addr :: Maps(out, name, addr) <==> LastFor(vals[..i], name, addr)
    {
      var c := Cut(vals[i]);
      assert vals[i] in vals;
      if c.None? || c.value.0 == "" || c.value.1 == "" {
        assert FirstBad(vals, i);
        return Err(BadPair(vals[i]));
      }
      if c.value.0 == SHELL {
        assert FirstBad(vals, i);
        return Err(Reserved(c.value.0));
      }
      ghost var before := out;
      out := out[c.value.0 := c.value.1];
      assert vals[..i + 1] == vals[..i] + [vals[i]];
      forall name, addr ensures Maps(out, name, addr) <==> LastFor(vals[..i + 1], name, addr) {
        LastForSnoc(vals[..i], vals[i], name, addr);
        assert Maps(before, name, addr) <==> LastFor(vals[..i], name, addr);
      }
      i := i + 1;
    }
    assert vals[..i] == vals;
    return Ok(out);
  }

  predicate Maps(m: map<string, string>, name: string, addr: string) {
    name in m && m[name] == addr
  }

  /** addr is what the last flag for name says. */
  ghost predicate LastFor(vals: seq<string>, name: string, addr: string) {
    exists i :: 0 <= i < |vals| && Says(vals[i], name, addr)
      && forall j :: i < j < |vals| ==> !Names(vals[j], name)
  }

  predicate Names(v: string, name: string) {
    Cut(v).Some? && Cut(v).value.0 == name
  }

  predicate Says(v: string, name: string, addr: string) {
    Cut(v) == Some((name, addr))
  }

  lemma LastForSnoc(vals: seq<string>, v: string, name: string, addr: string)
    ensures LastFor(vals + [v], name, addr) <==>
        if Names(v, name) then Says(v, name, addr) else LastFor(vals, name, addr)
  {
    var all := vals + [v];
    if Names(v, name) {
      if Says(v, name, addr) {
        assert Says(all[|vals|], name, addr);
      }
      if LastFor(all, name, addr) {
        var i :| 0 <= i < |all| && Says(all[i], name, addr) && forall j :: i < j < |all| ==> !Names(all[j], name);
        assert Names(all[|vals|], name);
        assert i == |vals|;
      }
    } else {
      if LastFor(vals, name, addr) {
        var i :| 0 <= i < |vals| && Says(vals[i], name, addr) && forall j :: i < j < |vals| ==> !Names(vals[j], name);
        assert Says(all[i], name, addr);
        assert forall j :: i < j < |all| ==> !Names(all[j], name);
      }
      if LastFor(all, name, addr) {
        var i :| 0 <= i < |all| && Says(all[i], name, addr) && forall j :: i < j < |all| ==> !Names(all[j], name);
        assert i < |vals|;
        assert Says(vals[i], name, addr);
        forall j | i < j < |vals| ensures !Names(vals[j], name) {
          assert all[j] == vals[j];
        }
      }
    }
  }

  /** Accepted flags name neither the shell nor nothing, and give an address. */
  lemma LastForIsGood(vals: seq<string>, name: string, addr: string)
    requires (forall v :: v in vals ==> GoodFlag(v)) && LastFor(vals, name, addr)
    ensures name != SHELL && name != "" && addr != ""
  {
    var i :| 0 <= i < |vals| && Says(vals[i], name, addr);
    assert vals[i] in vals;
  }

  // ---------------------------------------------------------------- the service

  /** A name against an allowlist. The empty string stands for the in-process shell. */
  function ResolveIn(endpoints: map<string, string>, name: string): Result<string, Refusal> {
    if name == SHELL then Ok("")
    else if name in endpoints then Ok(endpoints[name])
    else Err(NotListed(name))
  }

  /** What Handle does with an open connection. */
  datatype Route = Shell | DialAddr(addr: string) | Refuse(why: Refusal)

  class Service {
    var endpoints: map<string, string>

    /** NewService's copy of the allowlist; see NewService for the check before it. */
    constructor (endpoints: map<string, string>)
      ensures this.endpoints == endpoints
    {
      this.endpoints := endpoints;
    }

    function Resolve(name: string): (r: Result<string, Refusal>)
      reads this
      ensures r == Ok("") <==> name == SHELL || (name in endpoints && endpoints[name] == "")
      ensures r.Err? <==> name != SHELL && name !in endpoints
    {
      ResolveIn(endpoints, name)
    }

    function Handle(name: string): (r: Route)
      reads this
    {
      var addr := Resolve(name);
      if addr.Err? then Refuse(addr.error)
      else if addr.value == "" then Shell
      else DialAddr(addr.value)
    }

    /** Forward: the name is the one in the Open message. */
    function ViaConnect(name: string): Route
      reads this
    {
      Handle(name)
    }

    /** wsHandler: an absent name is the shell, and a bad one is refused before the upgrade. */
    function ViaWebSocket(name: string): (r: (bool, Route))
      reads this
    {
      var endpoint := if name == "" then SHELL else name;
      if Resolve(endpoint).Err? then (false, Refuse(Resolve(endpoint).error)) else (true, Handle(endpoint))
    }
  }

  method NewService(hasServer: bool, endpoints: map<string, string>) returns (r: Result<Service, Refusal>)
    ensures r.Err? <==> !hasServer || SHELL in endpoints
    ensures r.Ok? ==> fresh(r.value) && r.value.endpoints == endpoints
  {
    if !hasServer {
      return Err(NoServer);
    }
    if SHELL in endpoints {
      return Err(Reserved(SHELL));
    }
    var s := new Service(endpoints);
    return Ok(s);
  }

  /** What runServer does with its endpoint flags, once it has its ssh server. */
  method Configure(vals: seq<string>) returns (r: Result<Service, Refusal>)
    ensures r.Ok? <==> forall v :: v in vals ==> GoodFlag(v)
    ensures r.Ok? ==> fresh(r.value) && Allowlist(vals, r.value.endpoints)
  {
    var m := ParseEndpoints(vals);
    if m.Err? {
      return Err(m.error);
    }
    AllowlistIsGood(vals, m.value);
    r := NewService(true, m.value);
  }

  /** The map a list of accepted flags folds into. */
  ghost predicate Allowlist(vals: seq<string>, m: map<string, string>) {
    && (forall v :: v in vals ==> GoodFlag(v))
    && (forall name, addr :: Maps(m, name, addr) <==> LastFor(vals, name, addr))
  }

  lemma AllowlistIsGood(vals: seq<string>, m: map<string, string>)
    requires Allowlist(vals, m)
    ensures SHELL !in m && "" !in m && forall name :: name in m ==> m[name] != ""
  {
    forall name | name in m ensures name != SHELL && name != "" && m[name] != "" {
      assert Maps(m, name, m[name]);
      LastForIsGood(vals, name, m[name]);
    }
  }

  /** Routing is sound: the shell is taken for the name "shell" and no other, a listed name is dialled at the
      last address configured for it, everything else is refused. The empty-address sentinel never collides. */
  lemma RoutingIsSound(s: Service, vals: seq<string>, name: string)
    requires Allowlist(vals, s.endpoints)
    ensures s.Handle(name) == Shell <==> name == SHELL
    ensures forall addr :: s.Handle(name) == DialAddr(addr) <==> LastFor(vals, name, addr)
    ensures s.Handle(name).Refuse? <==> name != SHELL && forall addr :: !LastFor(vals, name, addr)
    ensures s.Handle(name).Refuse? ==> s.Handle(name).why == NotListed(name)
  {
    AllowlistIsGood(vals, s.endpoints);
    assert name in s.endpoints ==> Maps(s.endpoints, name, s.endpoints[name]);
    assert forall addr :: Maps(s.endpoints, name, addr) <==> LastFor(vals, name, addr);
  }

  /** Both doors refuse the same names, the WebSocket one before any tunnel exists, and route the rest alike; only
      an empty name differs. */
  lemma DoorsRouteAlike(s: Service, vals: seq<string>, name: string)
    requires Allowlist(vals, s.endpoints)
    ensures s.ViaConnect(name) == s.ViaWebSocket(name).1 <==> name != ""
    ensures name != "" ==> (s.ViaConnect(name).Refuse? <==> !s.ViaWebSocket(name).0)
    ensures s.ViaConnect("").Refuse? && s.ViaWebSocket("") == (true, Shell)
  {
    RoutingIsSound(s, vals, name);
    AllowlistIsGood(vals, s.endpoints);
  }
}
