/** Agent certificates on the client: the known-agents store, and the verification callback of tlsConfigFor. A
    handshake is taken as one step with the building of its config, since the pin is read when the config is
    built. */
module Trust {
  import opened Prelude
  import opened ClientConfig

  type Cert = bytes

  type Fp = string

  /** What cannot be computed here: the digest behind Fingerprint, the same in both packages and never empty, and
      the check against the system's roots. */
  datatype Crypto = Crypto(digest: Cert -> string, chainsToRoot: (Target, seq<Cert>) -> bool)

  function Fingerprint(c: Crypto, leaf: Cert): Fp {
    "SHA256:" + c.digest(leaf)
  }

  function Get(store: map<string, Fp>, name: string): Fp {
    if name in store then store[name] else ""
  }

  datatype Verdict = Accepted | NoCertificate | PinMismatch | NotRecorded

  /** One connection: what the callback decides, and the store it leaves. known is None when no store could be
      loaded. */
  function Connect(c: Crypto, t: Target, known: Option<map<string, Fp>>, certs: seq<Cert>)
    : (Verdict, Option<map<string, Fp>>)
  {
    if t.insecure then (Accepted, known)
    else if certs == [] then (NoCertificate, known)
    else
      var got := Fingerprint(c, certs[0]);
      var pinned := if t.fingerprint == "" && known.Some? then Get(known.value, t.name) else t.fingerprint;
      if pinned != "" then (if got == pinned then Accepted else PinMismatch, known)
      else if c.chainsToRoot(t, certs) then (Accepted, known)
      else (Accepted, if known.Some? then Some(known.value[t.name := got]) else None)
  }

  // ---------------------------------------------------------------- the store as an object

  class KnownAgents {
    var m: map<string, Fp>
    /** The JSON file: None until first written. */
    var disk: Option<map<string, Fp>>

    constructor (file: Option<map<string, Fp>>)
      ensures disk == file
      ensures m == if file.Some? then file.value else map[]
    {
      disk := file;
      m := if file.Some? then file.value else map[];
    }

    function Lookup(name: string): (fp: Fp)
      reads this
      ensures fp == Get(m, name)
    {
      if name in m then m[name] else ""
    }

    /** The map is changed before the file is written, which may fail. */
    method Add(name: string, fp: Fp, writable: bool) returns (ok: bool)
      modifies this
      ensures m == old(m)[name := fp] && ok == writable
      ensures disk == if writable then Some(m) else old(disk)
    {
      m := m[name := fp];
      if writable {
        disk := Some(m);
      }
      return writable;
    }

    /** The verification callback, on a config built just before. It writes the file exactly when it records a
        first use, and refuses the connection if it cannot. */
    method Verify(c: Crypto, t: Target, certs: seq<Cert>, writable: bool) returns (verdict: Verdict)
      modifies this
      ensures (Client(m, disk), verdict) == Step(c, old(Client(m, disk)), Dial(t, certs, writable))
    {
      if t.insecure {
        return Accepted;
      }
      var pinned := t.fingerprint;
      if pinned == "" {
        pinned := Lookup(t.name);
      }
      if |certs| == 0 {
        return NoCertificate;
      }
      var got := Fingerprint(c, certs[0]);
      if pinned != "" {
        return if got == pinned then Accepted else PinMismatch;
      }
      if c.chainsToRoot(t, certs) {
        return Accepted;
      }
      var recorded := Add(t.name, got, writable);
      return if recorded then Accepted else NotRecorded;
    }
  }

  /** The store's file as it is found. */
  datatype StoreFile = Absent | Unreadable | Malformed | Stored(m: map<string, Fp>)

  /** LoadKnownAgents: a missing file is an empty store; one that cannot be read or parsed is an error. */
  method LoadKnownAgents(file: StoreFile) returns (r: Result<KnownAgents, ()>)
    ensures r.Ok? <==> file.Absent? || file.Stored?
    ensures r.Ok? ==> fresh(r.value) && r.value.m == Reload(r.value.disk)
    ensures r.Ok? ==> r.value.disk == if file.Stored? then Some(file.m) else None
  {
    match file
    case Unreadable => return Err(());
    case Malformed => return Err(());
    case Absent =>
      var k := new KnownAgents(None);
      return Ok(k);
    case Stored(m) =>
      var k := new KnownAgents(Some(m));
      return Ok(k);
  }

  /** The one case that records: nothing configured, nothing recorded, no chain to a root. */
  predicate FirstUse(c: Crypto, t: Target, store: map<string, Fp>, certs: seq<Cert>) {
    !t.insecure && certs != [] && t.fingerprint == "" && Get(store, t.name) == "" && !c.chainsToRoot(t, certs)
  }

  // ---------------------------------------------------------------- over any sequence of connections

  /** A client's life: connections, and restarts that reload the store from its file. `writable` says whether the
      file could be written then. */
  datatype Event = Dial(t: Target, certs: seq<Cert>, writable: bool) | Restart

  /** The store in memory and its file. */
  datatype Client = Client(m: map<string, Fp>, disk: Option<map<string, Fp>>)

  function Reload(disk: Option<map<string, Fp>>): map<string, Fp> {
    if disk.Some? then disk.value else map[]
  }

  function Step(c: Crypto, s: Client, e: Event): (Client, Verdict) {
    match e
    case Restart => (s.(m := Reload(s.disk)), Accepted)
    case Dial(t, certs, writable) =>
      var (v, store) := Connect(c, t, Some(s.m), certs);
      if !FirstUse(c, t, s.m, certs) then (s, v)
      else if writable then (Client(store.value, store), v)
      else (Client(store.value, s.disk), NotRecorded)
  }

  function Live(c: Crypto, s: Client, events: seq<Event>): Client
    decreases |events|
  {
    if events == [] then s else Live(c, Step(c, s, events[0]).0, events[1..])
  }

  /** What the file holds, memory holds. */
  ghost predicate Backed(s: Client) {
    forall name :: Get(Reload(s.disk), name) != "" ==> Get(s.m, name) == Get(Reload(s.disk), name)
  }

  predicate AllWritable(events: seq<Event>) {
    forall e :: e in events && e.Dial? ==> e.writable
  }

  /** Write-once: over any sequence of connections and restarts, writes that fail included, a fingerprint recorded
      in the file is never changed, in the file or in memory. While every write succeeds, memory is what a reload
      would give. */
  lemma {:induction false} RecordedOnce(c: Crypto, s: Client, events: seq<Event>, name: string)
    requires Backed(s)
    ensures var s' := Live(c, s, events);
      && Backed(s')
      && (Get(Reload(s.disk), name) != "" ==>
            Get(Reload(s'.disk), name) == Get(s'.m, name) == Get(Reload(s.disk), name))
      && (s.m == Reload(s.disk) && AllWritable(events) ==> s'.m == Reload(s'.disk))
    decreases |events|
  {
    if events != [] {
      assert events[0] in events;
      RecordStep(c, s, events[0], name);
      hide Step, Backed;
      RecordedOnce(c, Step(c, s, events[0]).0, events[1..], name);
    }
  }

  lemma RecordStep(c: Crypto, s: Client, e: Event, name: string)
    requires Backed(s)
    ensures var s' := Step(c, s, e).0;
      && Backed(s')
      && (Get(Reload(s.disk), name) != "" ==>
            Get(Reload(s'.disk), name) == Get(s'.m, name) == Get(Reload(s.disk), name))
      && (s.m == Reload(s.disk) && (e.Dial? ==> e.writable) ==> s'.m == Reload(s'.disk))
  {
  }

  /** Which connections are accepted, exactly. Insecure ones all are. Any other must show a certificate; with a
      fingerprint configured, the leaf must have it; with none, one recorded for the name must be the leaf's; with
      neither, the chain must lead to a root or the leaf's fingerprint be recorded now. */
  lemma AcceptedExactly(c: Crypto, s: Client, t: Target, certs: seq<Cert>, writable: bool)
    ensures var v := Step(c, s, Dial(t, certs, writable)).1;
      var leaf := if certs == [] then "" else "SHA256:" + c.digest(certs[0]);
      var recorded := Get(s.m, t.name);
      && (v == Accepted <==>
          t.insecure ||
          (certs != [] &&
           (t.fingerprint == leaf
            || (t.fingerprint == "" && recorded == leaf)
            || (t.fingerprint == "" && recorded == "" && (c.chainsToRoot(t, certs) || writable)))))
      && (v == NoCertificate <==> !t.insecure && certs == [])
      && (v == NotRecorded ==> !writable && t.fingerprint == recorded == "")
  {
    assert Fingerprint(c, if certs == [] then [] else certs[0]) != "";
  }

  /** Which connections change the store, exactly: the first uses, and in that one entry. */
  lemma RecordsExactly(c: Crypto, s: Client, t: Target, certs: seq<Cert>, writable: bool)
    ensures var s' := Step(c, s, Dial(t, certs, writable)).0;
      if t.insecure || certs == [] || t.fingerprint != "" || Get(s.m, t.name) != "" || c.chainsToRoot(t, certs)
      then s' == s
      else
        && s'.m == s.m[t.name := "SHA256:" + c.digest(certs[0])]
        && s'.disk == if writable then Some(s'.m) else s.disk
  {
  }

  /** With no store at all, what is not pinned by configuration is accepted unseen. */
  lemma WithoutStore(c: Crypto, t: Target, certs: seq<Cert>)
    ensures Connect(c, t, None, certs).1 == None
    ensures Connect(c, t, None, certs).0 == Accepted <==>
      t.insecure || (certs != [] && (t.fingerprint == "" || t.fingerprint == "SHA256:" + c.digest(certs[0])))
  {
  }

  /** A first use that can be written is accepted, and then for ever: a later connection to the same name, with no
      fingerprint configured, is accepted exactly when its leaf has the fingerprint recorded then, whatever else was
      dialled in between. */
  lemma FirstUseDecides(c: Crypto, s: Client, t: Target, first: seq<Cert>, events: seq<Event>,
                        t': Target, later: seq<Cert>, writable: bool)
    requires Backed(s) && FirstUse(c, t, s.m, first)
    requires t'.name == t.name && !t'.insecure && t'.fingerprint == ""
    ensures Step(c, s, Dial(t, first, true)).1 == Accepted
    ensures var s' := Live(c, Step(c, s, Dial(t, first, true)).0, events);
      && Get(s'.m, t.name) == Fingerprint(c, first[0])
      && (Step(c, s', Dial(t', later, writable)).1 == Accepted
          <==> later != [] && Fingerprint(c, later[0]) == Fingerprint(c, first[0]))
      && Step(c, s', Dial(t', later, writable)).0 == s'
  {
    RecordStep(c, s, Dial(t, first, true), t.name);
    RecordedOnce(c, Step(c, s, Dial(t, first, true)).0, events, t.name);
  }

  /** A first use that could not be written is refused, but stays in memory: a second try is accepted and never
      written, and a restart forgets it. */
  lemma UnwrittenTrustIsForgotten(c: Crypto, s: Client, t: Target, first: seq<Cert>, writable: bool)
    requires s.m == Reload(s.disk) && FirstUse(c, t, s.m, first)
    ensures var (s1, v1) := Step(c, s, Dial(t, first, false));
      var (s2, v2) := Step(c, s1, Dial(t, first, writable));
      && v1 == NotRecorded && v2 == Accepted && s2.disk == s.disk
      && FirstUse(c, t, Step(c, s2, Restart).0.m, first)
  {
  }

  /** A configured fingerprint always wins: the store is neither consulted nor touched, nor are the system's roots.
      */
  lemma ConfiguredPinWins(c: Crypto, t: Target, a: Option<map<string, Fp>>, b: Option<map<string, Fp>>,
        certs: seq<Cert>)
    requires !t.insecure && t.fingerprint != ""
    ensures Connect(c, t, a, certs).0 == Connect(c, t, b, certs).0 && Connect(c, t, a, certs).1 == a
    ensures Connect(c, t, a, certs).0 == Accepted <==> certs != [] && Fingerprint(c, certs[0]) == t.fingerprint
  {
  }

  /** The object lives the specified life. */
  method Serve(c: Crypto, k: KnownAgents, dials: seq<(Target, seq<Cert>, bool)>)
    modifies k
    ensures Client(k.m, k.disk) == Live(c, old(Client(k.m, k.disk)), Dials(dials))
  {
    ghost var start := Client(k.m, k.disk);
    var i := 0;
    while i < |dials|
      invariant 0 <= i <= |dials|
      invariant Live(c, Client(k.m, k.disk), Dials(dials[i..])) == Live(c, start, Dials(dials))
    {
      ghost var before := Client(k.m, k.disk);
      assert Dials(dials[i..])[0] == Dial(dials[i].0, dials[i].1, dials[i].2);
      assert Dials(dials[i..])[1..] == Dials(dials[i + 1..]);
      var v := k.Verify(c, dials[i].0, dials[i].1, dials[i].2);
      assert Client(k.m, k.disk) == Step(c, before, Dial(dials[i].0, dials[i].1, dials[i].2)).0;
      i := i + 1;
    }
    assert dials[i..] == [];
  }

  function Dials(dials: seq<(Target, seq<Cert>, bool)>): (ds: seq<Event>)
    ensures |ds| == |dials|
  {
    seq(|dials|, i requires 0 <= i < |dials| => Dial(dials[i].0, dials[i].1, dials[i].2))
  }
}
