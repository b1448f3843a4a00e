/** The agent's identity on disk: the host key, the TLS pair and the token, the commands that load or create them,
    and what an invite carries of them to a client. The paths are taken to be the same in every command. */
module Identity {
  import opened Prelude
  import opened ClientConfig
  import Invite
  import Trust

  /** A file that is not there, one that is but cannot be read, and one whose directory keeps it from being looked
      at or written. Other writes succeed. */
  datatype File<+T> = Missing | Unreadable | OutOfReach | Holds(data: T)

  datatype Disk = Disk(hostKey: File<bytes>, cert: File<bytes>, key: File<bytes>, token: File<string>)

  /** A certificate chain is never empty: a pair without a leaf does not load. */
  datatype Chain = Chain(leaf: Trust.Cert, rest: seq<Trust.Cert>)

  /** The parsers of the key files, and the digest of an SSH key. */
  datatype Keyring = Keyring(host: bytes -> Option<bytes>, pair: (bytes, bytes) -> Option<Chain>,
      hostDigest: bytes -> string)

  /** What one command would generate. */
  datatype Fresh = Fresh(hostKey: bytes, cert: bytes, key: bytes, token: string)

  function HostStep(p: Keyring, d: Disk, f: Fresh): (Disk, Option<bytes>) {
    match d.hostKey
    case Holds(b) => (d, p.host(b))
    case Missing => (d.(hostKey := Holds(f.hostKey)), p.host(f.hostKey))
    case _ => (d, None)
  }

  datatype LoadError = NotExist | Unusable

  /** tls.LoadX509KeyPair: the certificate is read first. */
  function LoadPair(p: Keyring, cert: File<bytes>, key: File<bytes>): Result<Chain, LoadError> {
    match cert
    case Missing => Err(NotExist)
    case Unreadable => Err(Unusable)
    case OutOfReach => Err(Unusable)
    case Holds(c) =>
      match key
      case Missing => Err(NotExist)
      case Unreadable => Err(Unusable)
      case OutOfReach => Err(Unusable)
      case Holds(k) => if p.pair(c, k).Some? then Ok(p.pair(c, k).value) else Err(Unusable)
  }

  /** os.Stat succeeds. */
  predicate Seen<T>(f: File<T>) {
    f.Unreadable? || f.Holds?
  }

  /** LoadOrCreateTLSCert. The certificate is written first. */
  function PairStep(p: Keyring, d: Disk, f: Fresh): (Disk, Option<Chain>) {
    var r := LoadPair(p, d.cert, d.key);
    if r.Ok? then (d, Some(r.value))
    else if r.error == Unusable && Seen(d.cert) then (d, None)
    else if d.cert.OutOfReach? then (d, None)
    else if d.key.OutOfReach? then (d.(cert := Holds(f.cert)), None)
    else (d.(cert := Holds(f.cert), key := Holds(f.key)), p.pair(f.cert, f.key))
  }

  /** ensureToken: whether it made one, or why it could not. */
  function TokenStep(d: Disk, force: bool, f: Fresh): (Disk, Option<bool>) {
    if !force && Seen(d.token) then (d, Some(false))
    else if d.token.OutOfReach? then (d, None)
    else (d.(token := Holds(f.token + "\n")), Some(true))
  }

  /** CertFingerprint, the agent's own formatting of a digest. */
  function CertFingerprint(c: Trust.Crypto, der: Trust.Cert): string {
    "SHA256:" + c.digest(der)
  }

  // ---------------------------------------------------------------- commands

  /** Whether the flags for a certificate and for its key are given, and the other two. */
  datatype TlsFlags = TlsFlags(cert: bool, key: bool, auto: bool, h2c: bool)

  /** resolveTLS: whether there are paths for a pair, and whether the server is to create it. */
  function ResolveTls(t: TlsFlags): Option<(bool, bool)> {
    if t.cert != t.key then None
    else
      var auto := t.auto || (!t.cert && !t.h2c);
      Some((t.cert || auto, auto))
  }

  /** The token flags: `token`, and `named` for the file. `keys` says whether the authorized keys load. */
  datatype Command =
    | ShowHostKey(gen: Fresh)
    | ShowIdentity(gen: Fresh, tls: TlsFlags)
    | Init(gen: Fresh, tls: TlsFlags, force: bool, keys: bool)
    | Serve(gen: Fresh, tls: TlsFlags, keys: bool, token: string, named: bool)
    | Issue(gen: Fresh, tls: TlsFlags, url: string, token: string, named: bool, user: string)

  /** What a command shows: the host key, the chain it prints or serves, the invite text, and the token it asks its
      clients for. */
  datatype Outcome =
    | Failed
    | Shown(host: bytes, chain: Option<Chain>, text: Option<string>, expects: Option<string>)

  /** resolveToken. An invite takes the default file, where there is one, as if it were named. */
  function ResolveToken(token: string, named: bool, file: File<string>): Option<string> {
    if !named then Some(token)
    else if token != "" then None
    else match file
      case Holds(s) => Some(TrimSpace(s))
      case _ => None
  }

  function IssuedInvite(c: Trust.Crypto, p: Keyring, url: string, token: string, user: string, host: bytes,
        chain: Option<Chain>)
    : Invite.Invite
  {
    var pin := if chain.Some? then CertFingerprint(c, chain.value.leaf) else "";
    Invite.Invite(url, token, pin, p.hostDigest(host), user)
  }

  /** The load-or-create of a command with paths: the disk, and the chain or the failure. */
  function PairIf(p: Keyring, d: Disk, f: Fresh, tls: TlsFlags): (Disk, Result<Option<Chain>, ()>) {
    if ResolveTls(tls).None? then (d, Err(()))
    else if !ResolveTls(tls).value.0 then (d, Ok(None))
    else
      var (d', chain) := PairStep(p, d, f);
      (d', if chain.Some? then Ok(chain) else Err(()))
  }

  /** What follows the host key. */
  function AfterHost(c: Trust.Crypto, p: Keyring, d: Disk, host: bytes, cmd: Command): (Disk, Outcome) {
    match cmd
    case ShowHostKey(f) => (d, Shown(host, None, None, None))
    case ShowIdentity(f, tls) =>
      var (d', r) := PairIf(p, d, f, tls);
      (d', if r.Ok? then Shown(host, r.value, None, None) else Failed)
    case Init(f, tls, force, keys) =>
      var (d', r) := PairIf(p, d, f, tls);
      if r.Err? then (d', Failed)
      else
        var (d'', made) := TokenStep(d', force, f);
        (d'', if made.Some? && keys then Shown(host, r.value, None, None) else Failed)
    case Serve(f, tls, keys, token, named) =>
      var t := ResolveToken(token, named, d.token);
      if !keys || ResolveTls(tls).None? || t.None? then (d, Failed)
      else
        var (paths, auto) := ResolveTls(tls).value;
        if paths && tls.h2c then (d, Failed)
        else if paths && !auto then
          var r := LoadPair(p, d.cert, d.key);
          (d, if r.Ok? then Shown(host, Some(r.value), None, t) else Failed)
        else
          var (d', r) := PairIf(p, d, f, tls);
          (d', if r.Ok? then Shown(host, r.value, None, t) else Failed)
    case Issue(f, tls, url, token, named, user) =>
      var t := ResolveToken(token, named || Seen(d.token), d.token);
      if t.None? then (d, Failed)
      else
        var (d', r) := PairIf(p, d, f, tls);
        if r.Err? then (d', Failed)
        else
          var text := Invite.Encode(IssuedInvite(c, p, url, t.value, user, host, r.value));
          (d', if text.Ok? then Shown(host, r.value, Some(text.value), None) else Failed)
  }

  /** What a command looks at before it touches the host key. */
  predicate Unready(d: Disk, cmd: Command) {
    || (cmd.Issue? && cmd.url == "")
    || (cmd.Serve? && (ResolveToken(cmd.token, cmd.named, d.token).None? || ResolveTls(cmd.tls).None?))
  }

  function Exec(c: Trust.Crypto, p: Keyring, d: Disk, cmd: Command): (Disk, Outcome) {
    if Unready(d, cmd) then (d, Failed)
    else
      var (d', host) := HostStep(p, d, cmd.gen);
      if host.None? then (d', Failed) else AfterHost(c, p, d', host.value, cmd)
  }

  function ExecAll(c: Trust.Crypto, p: Keyring, d: Disk, cmds: seq<Command>): Disk
    decreases |cmds|
  {
    if cmds == [] then d else ExecAll(c, p, Exec(c, p, d, cmds[0]).0, cmds[1..])
  }

  // ---------------------------------------------------------------- the files, in place

  class Home {
    var hostKey: File<bytes>
    var cert: File<bytes>
    var key: File<bytes>
    var token: File<string>

    constructor (d: Disk)
      ensures Contents() == d
    {
      hostKey, cert, key, token := d.hostKey, d.cert, d.key, d.token;
    }

    function Contents(): Disk
      reads this
    {
      Disk(hostKey, cert, key, token)
    }

    method LoadOrCreateHostKey(p: Keyring, f: Fresh) returns (signer: Option<bytes>)
      modifies this`hostKey
      ensures (Contents(), signer) == HostStep(p, old(Contents()), f)
    {
      if hostKey.Holds? {
        return p.host(hostKey.data);
      }
      if !hostKey.Missing? {
        return None;
      }
      hostKey := Holds(f.hostKey);
      return p.host(f.hostKey);
    }

    method LoadOrCreateTLSCert(p: Keyring, f: Fresh) returns (pair: Option<Chain>)
      modifies this`cert, this`key
      ensures (Contents(), pair) == PairStep(p, old(Contents()), f)
    {
      var r := LoadPair(p, cert, key);
      if r.Ok? {
        return Some(r.value);
      }
      if r.error != NotExist {
        if Seen(cert) {
          return None;
        }
      }
      if cert.OutOfReach? {
        return None;
      }
      cert := Holds(f.cert);
      if key.OutOfReach? {
        return None;
      }
      key := Holds(f.key);
      return p.pair(f.cert, f.key);
    }

    method EnsureToken(force: bool, f: Fresh) returns (created: Option<bool>)
      modifies this`token
      ensures (Contents(), created) == TokenStep(old(Contents()), force, f)
    {
      if !force {
        if Seen(token) {
          return Some(false);
        }
      }
      if token.OutOfReach? {
        return None;
      }
      token := Holds(f.token + "\n");
      return Some(true);
    }

    method LoadOrCreateIf(p: Keyring, f: Fresh, tls: TlsFlags) returns (r: Result<Option<Chain>, ()>)
      modifies this`cert, this`key
      ensures (Contents(), r) == PairIf(p, old(Contents()), f, tls)
    {
      var paths := ResolveTls(tls);
      if paths.None? {
        return Err(());
      }
      if !paths.value.0 {
        return Ok(None);
      }
      var pair := LoadOrCreateTLSCert(p, f);
      return if pair.Some? then Ok(pair) else Err(());
    }

    method RunInit(c: Trust.Crypto, p: Keyring, cmd: Command) returns (o: Outcome)
      requires cmd.Init?
      modifies this
      ensures (Contents(), o) == Exec(c, p, old(Contents()), cmd)
    {
      var host := LoadOrCreateHostKey(p, cmd.gen);
      if host.None? {
        return Failed;
      }
      var r := LoadOrCreateIf(p, cmd.gen, cmd.tls);
      if r.Err? {
        return Failed;
      }
      var created := EnsureToken(cmd.force, cmd.gen);
      if created.None? || !cmd.keys {
        return Failed;
      }
      return Shown(host.value, r.value, None, None);
    }

    method RunInvite(c: Trust.Crypto, p: Keyring, cmd: Command) returns (o: Outcome)
      requires cmd.Issue?
      modifies this
      ensures (Contents(), o) == Exec(c, p, old(Contents()), cmd)
    {
      if cmd.url == "" {
        return Failed;
      }
      var host := LoadOrCreateHostKey(p, cmd.gen);
      if host.None? {
        return Failed;
      }
      var t := ResolveToken(cmd.token, cmd.named || Seen(token), token);
      if t.None? {
        return Failed;
      }
      var r := LoadOrCreateIf(p, cmd.gen, cmd.tls);
      if r.Err? {
        return Failed;
      }
      var text := Invite.Encode(IssuedInvite(c, p, cmd.url, t.value, cmd.user, host.value, r.value));
      return if text.Ok? then Shown(host.value, r.value, Some(text.value), None) else Failed;
    }
  }

  // ---------------------------------------------------------------- identities over whole runs

  /** The identity a disk holds, if it is usable. */
  function HostOf(p: Keyring, d: Disk): Option<bytes> {
    if d.hostKey.Holds? then p.host(d.hostKey.data) else None
  }

  function ChainOf(p: Keyring, d: Disk): Option<Chain> {
    var r := LoadPair(p, d.cert, d.key);
    if r.Ok? then Some(r.value) else None
  }

  /** One command: what it shows is what the disk then holds, and a usable identity is left byte for byte as it
      was. */
  lemma ExecKeeps(c: Trust.Crypto, p: Keyring, d: Disk, cmd: Command)
    ensures var (d', o) := Exec(c, p, d, cmd);
      && (o.Shown? ==> HostOf(p, d') == Some(o.host))
      && (o.Shown? && o.chain.Some? ==> ChainOf(p, d') == o.chain)
      && (HostOf(p, d).Some? ==> d'.hostKey == d.hostKey)
      && (ChainOf(p, d).Some? ==> d'.cert == d.cert && d'.key == d.key)
  {
    if !Unready(d, cmd) {
      var (d1, host) := HostStep(p, d, cmd.gen);
      if host.Some? {
        AfterHostKeeps(c, p, d1, host.value, cmd);
      }
    }
    hide AfterHost;
  }

  lemma AfterHostKeeps(c: Trust.Crypto, p: Keyring, d: Disk, host: bytes, cmd: Command)
    ensures var (d', o) := AfterHost(c, p, d, host, cmd);
      && d'.hostKey == d.hostKey
      && (o.Shown? ==> o.host == host)
      && (o.Shown? && o.chain.Some? ==> ChainOf(p, d') == o.chain)
      && (ChainOf(p, d).Some? ==> d'.cert == d.cert && d'.key == d.key)
  {
    if !cmd.ShowHostKey? {
      PairIfKeeps(p, d, cmd.gen, cmd.tls);
    }
    hide PairIf, ResolveTls, Invite.Encode;
  }

  lemma PairIfKeeps(p: Keyring, d: Disk, f: Fresh, tls: TlsFlags)
    ensures var (d', r) := PairIf(p, d, f, tls);
      && d'.hostKey == d.hostKey && d'.token == d.token
      && (r.Ok? && r.value.Some? ==> ChainOf(p, d') == r.value)
      && (ChainOf(p, d).Some? ==> d' == d)
  {
  }

  /** Written once: over any sequence of commands, a usable host key and a usable pair are never rewritten, and
      the token only by a forced init. */
  lemma {:induction false} IdentityIsWrittenOnce(c: Trust.Crypto, p: Keyring, d: Disk, cmds: seq<Command>)
    ensures var d' := ExecAll(c, p, d, cmds);
      && (HostOf(p, d).Some? ==> d'.hostKey == d.hostKey)
      && (ChainOf(p, d).Some? ==> d'.cert == d.cert && d'.key == d.key)
      && (!d.token.Missing? && (forall k :: k in cmds ==> !(k.Init? && k.force)) ==> d'.token == d.token)
    decreases |cmds|
  {
    if cmds != [] {
      var d1 := Exec(c, p, d, cmds[0]).0;
      ExecKeeps(c, p, d, cmds[0]);
      TokenKept(c, p, d, cmds[0]);
      IdentityIsWrittenOnce(c, p, d1, cmds[1..]);
      assert cmds[0] in cmds;
    }
  }

  lemma TokenKept(c: Trust.Crypto, p: Keyring, d: Disk, cmd: Command)
    ensures !d.token.Missing? && !(cmd.Init? && cmd.force) ==> Exec(c, p, d, cmd).0.token == d.token
  {
    if !cmd.ShowHostKey? {
      PairIfKeeps(p, HostStep(p, d, cmd.gen).0, cmd.gen, cmd.tls);
    }
    hide PairIf, LoadPair, Invite.Encode, IssuedInvite, TrimSpace;
  }

  /** From any disk whatever: once a command has shown an identity, every later command that shows one shows the
      same. */
  lemma ShownForever(c: Trust.Crypto, p: Keyring, d: Disk, first: Command, between: seq<Command>, last: Command)
    ensures var (d1, o1) := Exec(c, p, d, first);
      var o2 := Exec(c, p, ExecAll(c, p, d1, between), last).1;
      && (o1.Shown? && o2.Shown? ==> o2.host == o1.host)
      && (o1.Shown? && o2.Shown? && o1.chain.Some? && o2.chain.Some? ==> o2.chain == o1.chain)
  {
    var d1 := Exec(c, p, d, first).0;
    var d2 := ExecAll(c, p, d1, between);
    ExecKeeps(c, p, d, first);
    IdentityIsWrittenOnce(c, p, d1, between);
    ExecKeeps(c, p, d2, last);
  }

  /** When load-or-create writes the certificate, exactly: when there is none, and also over an existing readable
      one whose key file is not there. It reports a pair it cannot use in every other case. */
  lemma RegeneratesExactly(p: Keyring, d: Disk, f: Fresh)
    requires d.cert != Holds(f.cert)
    ensures var (d', pair) := PairStep(p, d, f);
      && (d'.cert != d.cert <==> d.cert.Missing? || (d.cert.Holds? && d.key.Missing?))
      && (d'.cert == d.cert ==> d' == d && pair == ChainOf(p, d))
      && (d'.cert != d.cert ==> d'.cert == Holds(f.cert) && pair == ChainOf(p, d'))
      && (d'.cert != d.cert ==> d'.key == if d.key.OutOfReach? then d.key else Holds(f.key))
      && d'.hostKey == d.hostKey && d'.token == d.token
  {
  }

  /** A creation stopped between its two writes. The next load does not report the half-written pair: it makes
      another one, so a fingerprint printed from the certificate alone is lost. The comment in the code promises a
      report. */
  lemma InterruptedPairIsReplaced(p: Keyring, d: Disk, f: Fresh, g: Fresh)
    requires d.cert.Missing? && g.cert != f.cert && p.pair(g.cert, g.key).Some?
    ensures var half := d.(cert := Holds(f.cert), key := Missing);
      var (d', pair) := PairStep(p, half, g);
      && pair == p.pair(g.cert, g.key) && ChainOf(p, d') == pair
      && d'.cert != half.cert
  {
    RegeneratesExactly(p, d.(cert := Holds(f.cert), key := Missing), g);
  }

  // ---------------------------------------------------------------- from the agent to the client

  /** What a printed invite says: the flags' URL and user, the digest of the host key shown with it, the fingerprint
      of the chain shown with it, and the token in the file on that disk or, where there is none, the flag's. */
  ghost predicate Carries(c: Trust.Crypto, p: Keyring, d: Disk, cmd: Command, o: Outcome, i: Invite.Invite)
    requires cmd.Issue? && o.Shown?
  {
    && i.url == cmd.url && i.user == cmd.user && i.hostKey == p.hostDigest(o.host)
    && i.tlsFingerprint == (if o.chain.Some? then "SHA256:" + c.digest(o.chain.value.leaf) else "")
    && i.token == if d.token.Holds? then TrimSpace(d.token.data) else cmd.token
  }

  lemma IssuedText(c: Trust.Crypto, p: Keyring, d: Disk, cmd: Command)
    requires cmd.Issue? && Exec(c, p, d, cmd).1.Shown?
    ensures var o := Exec(c, p, d, cmd).1;
      && o.text.Some? && cmd.url != ""
      && exists i: Invite.Invite :: o.text.value == Invite.Text(i) && Carries(c, p, d, cmd, o, i)
  {
    hide Invite.Text, TrimSpace, PairIf;
    var (d1, host) := HostStep(p, d, cmd.gen);
    var t := ResolveToken(cmd.token, cmd.named || Seen(d1.token), d1.token);
    var o := Exec(c, p, d, cmd).1;
    var i := IssuedInvite(c, p, cmd.url, t.value, cmd.user, o.host, o.chain);
    assert o.text.value == Invite.Text(i) && Carries(c, p, d, cmd, o, i);
  }

  /** A printed invite, decoded with whatever white space is around it. */
  lemma InviteSays(c: Trust.Crypto, p: Keyring, d: Disk, cmd: Command, before: string, after: string)
    requires cmd.Issue? && Exec(c, p, d, cmd).1.Shown? && AllSpace(before) && AllSpace(after)
    ensures var o := Exec(c, p, d, cmd).1;
      && o.text.Some?
      && var i := Invite.Decode(before + o.text.value + after);
         && i.Ok? && i.value.url == cmd.url && i.value.user == cmd.user && i.value.hostKey == p.hostDigest(o.host)
         && i.value.tlsFingerprint == (if o.chain.Some? then "SHA256:" + c.digest(o.chain.value.leaf) else "")
         && i.value.token == if d.token.Holds? then TrimSpace(d.token.data) else cmd.token
  {
    IssuedText(c, p, d, cmd);
    var o := Exec(c, p, d, cmd).1;
    var i :| o.text.value == Invite.Text(i) && Carries(c, p, d, cmd, o, i);
    hide Exec, Invite.Decode, Invite.Text;
    Invite.RoundTrip(i, before, after);
  }

  /** The pair is there, or can be made. */
  predicate PairAtHand(p: Keyring, d: Disk, f: Fresh) {
    || ChainOf(p, d).Some?
    || ((d.cert.Missing? || (d.cert.Holds? && d.key.Missing?)) && !d.key.OutOfReach? && p.pair(f.cert, f.key).Some?)
  }

  /** The host key is usable, or can be made. */
  predicate HostAtHand(p: Keyring, d: Disk, f: Fresh) {
    HostOf(p, d).Some? || (d.hostKey.Missing? && p.host(f.hostKey).Some?)
  }

  /** The TLS flags make sense, and the pair they call for, if any, is at hand. */
  predicate TlsAtHand(p: Keyring, d: Disk, f: Fresh, tls: TlsFlags) {
    tls.cert == tls.key && (tls.cert || tls.auto || !tls.h2c ==> PairAtHand(p, d, f))
  }

  lemma PairIfOk(p: Keyring, d: Disk, f: Fresh, tls: TlsFlags, host: File<bytes>)
    ensures PairIf(p, d.(hostKey := host), f, tls).1.Ok? <==> TlsAtHand(p, d, f, tls)
    ensures LoadPair(p, d.cert, d.key).Ok? <==> ChainOf(p, d).Some?
  {
  }

  /** When a command goes through, exactly, told from the disk it starts on and its flags. */
  lemma ShowsExactly(c: Trust.Crypto, p: Keyring, d: Disk, cmd: Command)
    ensures Exec(c, p, d, cmd).1.Shown? <==>
      HostAtHand(p, d, cmd.gen) &&
      match cmd
      case ShowHostKey(_) => true
      case ShowIdentity(f, tls) => TlsAtHand(p, d, f, tls)
      case Init(f, tls, _, keys) => TlsAtHand(p, d, f, tls) && keys && !d.token.OutOfReach?
      case Serve(f, tls, keys, token, named) =>
        && keys && TlsAtHand(p, d, f, tls) && (named ==> d.token.Holds? && token == "")
        && (tls.h2c ==> !tls.cert && !tls.auto) && (tls.cert && !tls.auto ==> ChainOf(p, d).Some?)
      case Issue(f, tls, url, token, named, _) =>
        && url != "" && TlsAtHand(p, d, f, tls)
        && (if d.token.Holds? then token == "" else !d.token.Unreadable? && !named)
  {
    var d1 := HostStep(p, d, cmd.gen).0;
    assert d1 == d.(hostKey := d1.hostKey);
    if !cmd.ShowHostKey? {
      PairIfOk(p, d, cmd.gen, cmd.tls, d1.hostKey);
      PairIfKeeps(p, d1, cmd.gen, cmd.tls);
      assert cmd.tls.cert == cmd.tls.key <==> ResolveTls(cmd.tls).Some?;
      assert TlsAtHand(p, d, cmd.gen, cmd.tls) ==> cmd.tls.cert == cmd.tls.key;
    }
    hide Invite.Text, TrimSpace, IssuedInvite, PairIf, LoadPair, ChainOf, TlsAtHand;
  }

  /** A host key that is there and cannot be used is reported by every command and replaced by none. */
  lemma BrokenHostKeyIsReported(c: Trust.Crypto, p: Keyring, d: Disk, cmds: seq<Command>, cmd: Command)
    requires !d.hostKey.Missing? && HostOf(p, d).None?
    ensures ExecAll(c, p, d, cmds).hostKey == d.hostKey
    ensures Exec(c, p, ExecAll(c, p, d, cmds), cmd).1 == Failed
  {
    HostKeyKept(c, p, d, cmds);
    ShowsExactly(c, p, ExecAll(c, p, d, cmds), cmd);
  }

  lemma {:induction false} HostKeyKept(c: Trust.Crypto, p: Keyring, d: Disk, cmds: seq<Command>)
    requires !d.hostKey.Missing?
    ensures ExecAll(c, p, d, cmds).hostKey == d.hostKey
    decreases |cmds|
  {
    if cmds != [] {
      OnlyMissingIsMade(c, p, d, cmds[0]);
      hide Exec;
      HostKeyKept(c, p, Exec(c, p, d, cmds[0]).0, cmds[1..]);
    }
  }

  lemma OnlyMissingIsMade(c: Trust.Crypto, p: Keyring, d: Disk, cmd: Command)
    ensures !d.hostKey.Missing? ==> Exec(c, p, d, cmd).0.hostKey == d.hostKey
  {
    if !Unready(d, cmd) && HostStep(p, d, cmd.gen).1.Some? {
      AfterHostKeeps(c, p, HostStep(p, d, cmd.gen).0, HostStep(p, d, cmd.gen).1.value, cmd);
    }
    hide AfterHost;
  }

  lemma InitMakesToken(c: Trust.Crypto, p: Keyring, d: Disk, init: Command)
    requires init.Init? && (init.force || d.token.Missing?) && Exec(c, p, d, init).1.Shown?
    ensures Exec(c, p, d, init).0.token == Holds(init.gen.token + "\n")
  {
  }

  lemma Ended(token: string)
    requires Tight(token)
    ensures TrimSpace(token + "\n") == token
  {
    TrimAround("", token, "\n");
    assert "" + token + "\n" == token + "\n";
  }

  /** The token init makes is the one later invites carry, until another is forced. */
  lemma MadeTokenIsIssued(c: Trust.Crypto, p: Keyring, d: Disk, init: Command, between: seq<Command>, issue: Command)
    requires init.Init? && (init.force || d.token.Missing?) && Exec(c, p, d, init).1.Shown?
    requires forall k :: k in between ==> !(k.Init? && k.force)
    requires issue.Issue? && Tight(init.gen.token)
    ensures var (d', o) := Exec(c, p, ExecAll(c, p, Exec(c, p, d, init).0, between), issue);
      o.Shown? ==>
        o.text.Some? && Invite.Decode(o.text.value).Ok? && Invite.Decode(o.text.value).value.token == init.gen.token
  {
    hide Exec, Invite.Decode, TrimSpace, IsSpace;
    InitMakesToken(c, p, d, init);
    var d1 := Exec(c, p, d, init).0;
    var d2 := ExecAll(c, p, d1, between);
    IdentityIsWrittenOnce(c, p, d1, between);
    if Exec(c, p, d2, issue).1.Shown? {
      InviteSays(c, p, d2, issue, "", "");
      var text := Exec(c, p, d2, issue).1.text.value;
      assert "" + text + "" == text;
      Ended(init.gen.token);
    }
  }

  /** A target whose fingerprint came with an invite of this chain. */
  lemma PinnedTarget(c: Trust.Crypto, t: Target, chain: Chain, known: Option<map<string, Trust.Fp>>,
        certs: seq<Trust.Cert>)
    requires !t.insecure && t.fingerprint == CertFingerprint(c, chain.leaf)
    ensures Trust.Connect(c, t, known, [chain.leaf] + chain.rest).0 == Trust.Accepted
    ensures Trust.Connect(c, t, known, certs).1 == known
    ensures Trust.Connect(c, t, known, certs).0 == Trust.Accepted
      <==> certs != [] && Trust.Fingerprint(c, certs[0]) == Trust.Fingerprint(c, chain.leaf)
  {
    Trust.ConfiguredPinWins(c, t, known, known, certs);
    assert ([chain.leaf] + chain.rest)[0] == chain.leaf;
  }

  /** What the client resolves after registering from an invite, and after any later registrations that do not
      force this name. */
  lemma RegisteredTarget(i: Invite.Invite, agents: Agents, a: Add, before: string, after: string, adds: seq<Add>,
        o: Overrides)
    requires i.url != "" && AllSpace(before) && AllSpace(after) && a.from == before + Invite.Text(i) + after
    requires a.flags.fingerprint == "" && !a.flags.insecure && o.fingerprint == "" && !o.insecure
    requires AddStep(agents, a).1.Ok? && forall b :: b in adds && b.name == a.name ==> !b.force
    requires TargetFor(AddAll(AddStep(agents, a).0, adds), a.name, o).Ok?
    ensures var t := TargetFor(AddAll(AddStep(agents, a).0, adds), a.name, o).value;
      && t.url == i.url && !t.insecure && t.fingerprint == i.tlsFingerprint
      && t.token == Or(o.token, Or(a.flags.token, i.token)) && t.user == Or(a.flags.user, i.user)
  {
    InviteIsKept(agents, a, i, before, after);
    KeptUnlessForced(AddStep(agents, a).0, adds, a.name);
  }

  /** The token an agent asks for is the file's, which only a forced init replaces. */
  lemma ServesToken(c: Trust.Crypto, p: Keyring, d: Disk, first: Command, between: seq<Command>, serve: Command)
    requires !first.Init? && d.token.Holds? && forall k :: k in between ==> !(k.Init? && k.force)
    requires serve.Serve? && serve.named
    ensures var o := Exec(c, p, ExecAll(c, p, Exec(c, p, d, first).0, between), serve).1;
      o.Shown? ==> o.expects == Some(TrimSpace(d.token.data))
  {
    TokenKept(c, p, d, first);
    IdentityIsWrittenOnce(c, p, Exec(c, p, d, first).0, between);
    AsksForFile(c, p, ExecAll(c, p, Exec(c, p, d, first).0, between), serve);
  }

  lemma AsksForFile(c: Trust.Crypto, p: Keyring, d: Disk, serve: Command)
    requires serve.Serve?
    ensures var o := Exec(c, p, d, serve).1;
      o.Shown? ==> o.expects == ResolveToken(serve.token, serve.named, d.token)
  {
  }

  /** An invite pins end to end. An agent in any state issues an invite; a client registers from its text, picked
      up with any white space, and with no flag of its own for trust. Then, whatever commands the agent has run
      since and whatever else the client has registered since, the client accepts what the agent serves, refuses
      every certificate of another fingerprint, and does so whatever its known-agents store holds, which it leaves
      alone. It sends the token that was on that disk, or the invite's flag, or its own, which is what an agent
      serving from the same file asks for as long as no token was forced on it. */
  lemma InvitePinsEndToEnd(c: Trust.Crypto, p: Keyring, d: Disk, issue: Command, between: seq<Command>, serve: Command,
                           agents: Agents, a: Add, before: string, after: string, adds: seq<Add>, o: Overrides,
                           known: Option<map<string, Trust.Fp>>, certs: seq<Trust.Cert>)
    requires issue.Issue? && Exec(c, p, d, issue).1.Shown? && Exec(c, p, d, issue).1.chain.Some?
    requires AllSpace(before) && AllSpace(after) && a.from == before + Exec(c, p, d, issue).1.text.value + after
    requires a.flags.fingerprint == "" && !a.flags.insecure && o.fingerprint == "" && !o.insecure
    requires AddStep(agents, a).1.Ok? && forall b :: b in adds && b.name == a.name ==> !b.force
    requires TargetFor(AddAll(AddStep(agents, a).0, adds), a.name, o).Ok?
    requires var s := Exec(c, p, ExecAll(c, p, Exec(c, p, d, issue).0, between), serve).1; s.Shown? && s.chain.Some?
    ensures var served := Exec(c, p, ExecAll(c, p, Exec(c, p, d, issue).0, between), serve).1.chain.value;
      var t := TargetFor(AddAll(AddStep(agents, a).0, adds), a.name, o).value;
      && t.url == issue.url
      && Trust.Connect(c, t, known, [served.leaf] + served.rest).0 == Trust.Accepted
      && (Trust.Connect(c, t, known, certs).0 == Trust.Accepted
          <==> certs != [] && Trust.Fingerprint(c, certs[0]) == Trust.Fingerprint(c, served.leaf))
      && Trust.Connect(c, t, known, certs).1 == known
      && t.token == Or(o.token, Or(a.flags.token, if d.token.Holds? then TrimSpace(d.token.data) else issue.token))
      && t.user == Or(a.flags.user, issue.user)
      && (serve.Serve? && serve.named && d.token.Holds? && o.token == a.flags.token == ""
          && (forall k :: k in between ==> !(k.Init? && k.force)) ==>
            Exec(c, p, ExecAll(c, p, Exec(c, p, d, issue).0, between), serve).1.expects == Some(t.token))
  {
    var out := Exec(c, p, d, issue).1;
    IssuedText(c, p, d, issue);
    var i :| out.text.value == Invite.Text(i) && Carries(c, p, d, issue, out, i);
    if serve.Serve? && serve.named && d.token.Holds? && forall k :: k in between ==> !(k.Init? && k.force) {
      ServesToken(c, p, d, issue, between, serve);
    }
    hide Exec, Carries, AddStep, TargetFor, Invite.Text;
    assert Carries(c, p, d, issue, out, i);
    RegisteredTarget(i, agents, a, before, after, adds, o);
    ShownForever(c, p, d, issue, between, serve);
    var t := TargetFor(AddAll(AddStep(agents, a).0, adds), a.name, o).value;
    PinnedTarget(c, t, out.chain.value, known, certs);
  }

  /** What a registration from a plain invite text comes to. */
  lemma FirstAdd(i: Invite.Invite, name: string)
    requires i.url != "" && name != ""
    ensures var (agents, r) := AddStep(map[],
        Add(name, false, Agent("", "", "", false, "", 0, ""), Invite.Text(i), "", ""));
      && r.Ok? && r.value.url == i.url && r.value.token == i.token && r.value.user == i.user
      && r.value.fingerprint == i.tlsFingerprint && TargetFor(agents, name, Overrides("", false, "", "")) == r
  {
    hide Invite.Decode, Invite.Text;
    Invite.PlainRoundTrip(i);
  }

  const PLAIN := TlsFlags(false, false, false, false)

  lemma FirstInit(c: Trust.Crypto, p: Keyring, f: Fresh)
    requires p.host(f.hostKey).Some? && p.pair(f.cert, f.key).Some?
    ensures Exec(c, p, Disk(Missing, Missing, Missing, Missing), Init(f, PLAIN, false, true)) ==
      (Disk(Holds(f.hostKey), Holds(f.cert), Holds(f.key), Holds(f.token + "\n")),
       Shown(p.host(f.hostKey).value, p.pair(f.cert, f.key), None, None))
  {
  }

  lemma FirstServe(c: Trust.Crypto, p: Keyring, f: Fresh, g: Fresh)
    requires p.host(f.hostKey).Some? && p.pair(f.cert, f.key).Some?
    ensures var d := Disk(Holds(f.hostKey), Holds(f.cert), Holds(f.key), Holds(f.token + "\n"));
      Exec(c, p, d, Serve(g, PLAIN, true, "", true)).1 ==
      Shown(p.host(f.hostKey).value, p.pair(f.cert, f.key), None, Some(TrimSpace(f.token + "\n")))
  {
  }

  lemma FirstIssue(c: Trust.Crypto, p: Keyring, f: Fresh, g: Fresh, url: string, user: string)
    requires url != "" && p.host(f.hostKey).Some? && p.pair(f.cert, f.key).Some?
    ensures var d := Disk(Holds(f.hostKey), Holds(f.cert), Holds(f.key), Holds(f.token + "\n"));
      var (d', o) := Exec(c, p, d, Issue(g, PLAIN, url, "", false, user));
      d' == d && o.Shown? && o.host == p.host(f.hostKey).value && o.chain == p.pair(f.cert, f.key)
  {
  }

  /** And it does come to that. On a machine with no files yet, init makes them; an invite for any URL is then
      printed; a client with an empty config that is given only a name and the text registers; and the agent started
      next serves the pinned certificate and asks for the token the client has: the one init made. */
  lemma FirstInviteWorks(c: Trust.Crypto, p: Keyring, f: Fresh, g: Fresh, url: string, user: string, name: string)
    requires url != "" && name != "" && p.host(f.hostKey).Some? && p.pair(f.cert, f.key).Some? && Tight(f.token)
    ensures var (d0, o0) := Exec(c, p, Disk(Missing, Missing, Missing, Missing), Init(f, PLAIN, false, true));
      var (d, o) := Exec(c, p, d0, Issue(g, PLAIN, url, "", false, user));
      && o0.Shown? && o.Shown? && o.chain == o0.chain == p.pair(f.cert, f.key) && o.text.Some?
      && Exec(c, p, d, Serve(g, PLAIN, true, "", true)).1 == Shown(o.host, o.chain, None, Some(f.token))
      && var (agents, r) := AddStep(map[], Add(name, false, Agent("", "", "", false, "", 0, ""), o.text.value, "", ""));
         && r.Ok? && r.value.url == url && r.value.fingerprint == "SHA256:" + c.digest(o.chain.value.leaf)
         && r.value.token == f.token && r.value.user == user
         && TargetFor(agents, name, Overrides("", false, "", "")) == r
  {
    FirstInit(c, p, f);
    FirstIssue(c, p, f, g, url, user);
    FirstServe(c, p, f, g);
    Ended(f.token);
    var d := Disk(Holds(f.hostKey), Holds(f.cert), Holds(f.key), Holds(f.token + "\n"));
    var issue := Issue(g, PLAIN, url, "", false, user);
    IssuedText(c, p, d, issue);
    var i :| Exec(c, p, d, issue).1.text.value == Invite.Text(i)
        && Carries(c, p, d, issue, Exec(c, p, d, issue).1, i);
    hide Exec, AddStep, Resolve, TargetFor, Invite.Text;
    FirstAdd(i, name);
  }
}
