/** Invites: the payload, and the pasteable text that carries it. */
module Invite {
  import opened Prelude
  import Base64Url
  import Utf8
  import Json

  const PREFIX := "san1_"

  datatype Invite = Invite(url: string, token: string, tlsFingerprint: string, hostKey: string, user: string)

  datatype Failure = NeedsUrl | NotAnInvite | BadBase64 | BadJson | NoUrl

  /** omitempty. */
  function Optional(key: string, value: string): Json.Members {
    if value == "" then [] else [(key, value)]
  }

  function Fields(i: Invite): Json.Members {
    [("url", i.url)] + Optional("token", i.token) + Optional("tls_fingerprint", i.tlsFingerprint)
    + Optional("host_key", i.hostKey) + Optional("user", i.user)
  }

  function Text(i: Invite): string {
    PREFIX + Base64Url.Encode(Utf8.Encode(Json.WriteObject(Fields(i))))
  }

  function Encode(i: Invite): (r: Result<string, Failure>)
    ensures r.Err? <==> i.url == ""
  {
    if i.url == "" then Err(NeedsUrl) else Ok(Text(i))
  }

  /** A field's value: the last member of that name, or empty if there is none. */
  function Field(ms: Json.Members, key: string): string {
    if ms == [] then ""
    else if ms[|ms| - 1].0 == key then ms[|ms| - 1].1
    else Field(ms[..|ms| - 1], key)
  }

  function FromMembers(ms: Json.Members): Invite {
    Invite(Field(ms, "url"), Field(ms, "token"), Field(ms, "tls_fingerprint"), Field(ms, "host_key"), Field(ms, "user"))
  }

  function Decode(text: string): (r: Result<Invite, Failure>)
    ensures r.Ok? ==> r.value.url != ""
  {
    var s := TrimSpace(text);
    if !(PREFIX <= s) then Err(NotAnInvite)
    else
      var b := Base64Url.Decode(s[|PREFIX|..]);
      if b.None? then Err(BadBase64)
      else
        var ms := Json.ReadObject(Utf8.Decode(b.value));
        if ms.None? then Err(BadJson)
        else
          var i := FromMembers(ms.value);
          if i.url == "" then Err(NoUrl) else Ok(i)
  }

  lemma FieldSkips(ms: Json.Members, key: string, value: string, other: string)
    requires key != other
    ensures Field(ms + Optional(key, value), other) == Field(ms, other)
  {
    if value != "" {
      assert (ms + [(key, value)])[..|ms|] == ms;
    } else {
      assert ms + [] == ms;
    }
  }

  lemma FieldFinds(ms: Json.Members, key: string, value: string)
    requires Field(ms, key) == ""
    ensures Field(ms + Optional(key, value), key) == value
  {
    assert ms + [] == ms;
  }

  /** What appending one optional field does to all lookups. */
  lemma FieldAppend(ms: Json.Members, key: string, value: string)
    requires Field(ms, key) == ""
    ensures Field(ms + Optional(key, value), key) == value
    ensures forall other: string :: other != key ==> Field(ms + Optional(key, value), other) == Field(ms, other)
  {
    FieldFinds(ms, key, value);
    forall other: string | other != key ensures Field(ms + Optional(key, value), other) == Field(ms, other) {
      FieldSkips(ms, key, value, other);
    }
  }

  lemma FieldsFound(k0: string, v0: string, k1: string, v1: string, k2: string, v2: string,
                    k3: string, v3: string, k4: string, v4: string)
    requires k0 != k1 && k0 != k2 && k0 != k3 && k0 != k4
    requires k1 != k2 && k1 != k3 && k1 != k4 && k2 != k3 && k2 != k4 && k3 != k4
    ensures var ms := [(k0, v0)] + Optional(k1, v1) + Optional(k2, v2) + Optional(k3, v3) + Optional(k4, v4);
      Field(ms, k0) == v0 && Field(ms, k1) == v1 && Field(ms, k2) == v2 && Field(ms, k3) == v3 && Field(ms, k4) == v4
  {
    var m0: Json.Members := [(k0, v0)];
    var m1 := m0 + Optional(k1, v1);
    var m2 := m1 + Optional(k2, v2);
    var m3 := m2 + Optional(k3, v3);
    assert m0[..0] == [] && Field([], k1) == "" && Field([], k2) == "" && Field([], k3) == "" && Field([], k4) == "";
    assert Field(m0, k0) == v0;
    FieldAppend(m0, k1, v1);
    assert Field(m1, k2) == Field(m0, k2) == "";
    FieldAppend(m1, k2, v2);
    assert Field(m2, k3) == Field(m1, k3) == Field(m0, k3) == "";
    FieldAppend(m2, k3, v3);
    assert Field(m3, k4) == Field(m2, k4) == Field(m1, k4) == Field(m0, k4) == "";
    FieldAppend(m3, k4, v4);
  }

  /** Omitted fields come back empty, the others as they were. */
  lemma FieldsRestored(i: Invite)
    ensures FromMembers(Fields(i)) == i
  {
    assert |"url"| == 3 && |"token"| == 5 && |"tls_fingerprint"| == 15 && |"host_key"| == 8 && |"user"| == 4;
    FieldsFound("url", i.url, "token", i.token, "tls_fingerprint", i.tlsFingerprint, "host_key", i.hostKey, "user",
        i.user);
  }

  /** Which members are written, exactly: the URL, and those of the others that are not empty, once each. */
  lemma WrittenExactly(i: Invite, key: string)
    ensures |Fields(i)| == 1 + (if i.token == "" then 0 else 1) + (if i.tlsFingerprint == "" then 0 else 1)
                           + (if i.hostKey == "" then 0 else 1) + (if i.user == "" then 0 else 1)
    ensures (exists m :: m in Fields(i) && m.0 == key) <==>
      || key == "url" || (key == "token" && i.token != "") || (key == "tls_fingerprint" && i.tlsFingerprint != "")
      || (key == "host_key" && i.hostKey != "") || (key == "user" && i.user != "")
  {
    assert ("url", i.url) in Fields(i);
    assert i.token != "" ==> ("token", i.token) in Fields(i);
    assert i.tlsFingerprint != "" ==> ("tls_fingerprint", i.tlsFingerprint) in Fields(i);
    assert i.hostKey != "" ==> ("host_key", i.hostKey) in Fields(i);
    assert i.user != "" ==> ("user", i.user) in Fields(i);
  }

  /** The text of an invite holds no white space, so nothing of it can be trimmed away. */
  lemma TextHasNoSpace(i: Invite)
    ensures Text(i) != "" && forall k :: 0 <= k < |Text(i)| ==> !IsSpace(Text(i)[k])
  {
    var body := Base64Url.Encode(Utf8.Encode(Json.WriteObject(Fields(i))));
    Base64Url.RoundTrip(Utf8.Encode(Json.WriteObject(Fields(i))));
    forall k | 0 <= k < |Text(i)| ensures !IsSpace(Text(i)[k]) {
      if k >= |PREFIX| {
        assert Text(i)[k] == body[k - |PREFIX|];
      }
    }
  }

  /** The round trip: every invite with a URL, whatever its other fields hold, decodes to itself from its text,
      with any white space picked up on either side. */
  lemma RoundTrip(i: Invite, before: string, after: string)
    requires i.url != "" && AllSpace(before) && AllSpace(after)
    ensures Encode(i).Ok? && Decode(before + Encode(i).value + after) == Ok(i)
  {
    TextHasNoSpace(i);
    TrimAround(before, Text(i), after);
    var json := Json.WriteObject(Fields(i));
    var body := Base64Url.Encode(Utf8.Encode(json));
    assert Text(i)[|PREFIX|..] == body;
    Base64Url.RoundTrip(Utf8.Encode(json));
    Utf8.RoundTrip(json);
    Json.ObjectRoundTrip(Fields(i), "");
    assert json + "" == json;
    FieldsRestored(i);
  }

  /** The text as it was printed. */
  lemma PlainRoundTrip(i: Invite)
    requires i.url != ""
    ensures Decode(Text(i)) == Ok(i) && Text(i) != ""
  {
    hide Decode, Text, IsSpace;
    RoundTrip(i, "", "");
    TextHasNoSpace(i);
    assert "" + Text(i) + "" == Text(i);
  }

  /** Of members with the same name the last one counts, and others are ignored. */
  lemma LastMemberWins(ms: Json.Members, key: string, value: string, other: string)
    ensures Field(ms + [(key, value)], other) == if other == key then value else Field(ms, other)
  {
    assert (ms + [(key, value)])[..|ms|] == ms;
  }

  /** What is taken for an invite, exactly: white space around it apart, the prefix and the base64url of an object of
      strings with a URL. */
  lemma AcceptedExactly(text: string, i: Invite)
    ensures Decode(text) == Ok(i) <==>
      i.url != "" && exists body: string, b: bytes, ms: Json.Members ::
        && TrimSpace(text) == "san1_" + body && Base64Url.Decode(body) == Some(b)
        && Json.ReadObject(Utf8.Decode(b)) == Some(ms) && FromMembers(ms) == i
    ensures Decode(text) == Err(NotAnInvite) <==> !("san1_" <= TrimSpace(text))
    ensures Decode(text) == Err(NoUrl) <==>
      exists body: string, b: bytes, ms: Json.Members ::
        && TrimSpace(text) == "san1_" + body && Base64Url.Decode(body) == Some(b)
        && Json.ReadObject(Utf8.Decode(b)) == Some(ms) && FromMembers(ms).url == ""
  {
    var s := TrimSpace(text);
    hide TrimSpace, Base64Url.Decode, Json.ReadObject, Utf8.Decode, FromMembers;
    if PREFIX <= s {
      assert s == "san1_" + s[|PREFIX|..];
      assert forall body: string :: s == "san1_" + body ==> body == s[|PREFIX|..];
    }
  }

  /** Different invites have different texts. */
  lemma TextsDiffer(i: Invite, j: Invite)
    requires i.url != "" && j.url != "" && i != j
    ensures Text(i) != Text(j)
  {
    hide Decode, Text;
    PlainRoundTrip(i);
    PlainRoundTrip(j);
  }
}
