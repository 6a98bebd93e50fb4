/** Domain separation of the one signing key (`mac`, `sign`, `verify` in src/oauth.rs). */
module MacLabels {
  import opened Common

  /** The byte string fed to HMAC: the label, a zero byte, the value. */
  function MacInput(domain: Bytes, value: Bytes): (r: Bytes) {
    domain + [0] + value
  }

  predicate NulFree(domain: Bytes) {
    0 !in domain
  }

  /** Position of the first zero byte, or the length when there is none. */
  function FirstNul(s: Bytes): (n: nat)
    ensures n <= |s|
    ensures 0 !in s[..n]
    ensures n < |s| ==> s[n] == 0
  {
    if s == [] || s[0] == 0 then 0 else 1 + FirstNul(s[1..])
  }

  lemma LabelEndsAtFirstNul(domain: Bytes, value: Bytes)
    requires NulFree(domain)
    ensures FirstNul(MacInput(domain, value)) == |domain|
  {
    var s := MacInput(domain, value);
    var n := FirstNul(s);
    assert s[|domain|] == 0 && forall i | 0 <= i < |domain| :: s[i] == domain[i];
    assert forall i | 0 <= i < n :: s[i] in s[..n];
  }

  /** Label and value can both be read back, so nothing signed under one domain is an input under another. */
  lemma MacInputInjective(l1: Bytes, v1: Bytes, l2: Bytes, v2: Bytes)
    requires NulFree(l1) && NulFree(l2)
    requires MacInput(l1, v1) == MacInput(l2, v2)
    ensures l1 == l2 && v1 == v2
  {
    LabelEndsAtFirstNul(l1, v1);
    LabelEndsAtFirstNul(l2, v2);
    var s := MacInput(l1, v1);
    assert l1 == s[..|l1|] && v1 == s[|l1| + 1..];
    assert l2 == s[..|l2|] && v2 == s[|l2| + 1..];
  }

  /** The nine purposes the signing key serves. */
  datatype Purpose =
    | AccessToken | RefreshToken | ApprovalRequest | DynamicClient | DynamicClientSecret
    | TokenHash | RefreshTokenIdHash | RefreshClientBinding | AuditFingerprint

  function LabelName(p: Purpose): (r: string) {
    match p
    case AccessToken => "access-token"
    case RefreshToken => "refresh-token"
    case ApprovalRequest => "approval-request"
    case DynamicClient => "dynamic-client"
    case DynamicClientSecret => "dynamic-client-secret"
    case TokenHash => "token-hash"
    case RefreshTokenIdHash => "refresh-token-id-hash"
    case RefreshClientBinding => "refresh-client-binding"
    case AuditFingerprint => "audit-fingerprint"
  }

  const LABEL_PREFIX: string := "engram-mcp/oauth/"
  const LABEL_SUFFIX: string := "/v1"

  predicate IsPlain(s: string) {
    forall i | 0 <= i < |s| :: 0 < s[i] as int < 0x80
  }

  /** A byte string literal: one byte per ASCII character. */
  function AsciiBytes(s: string): (b: Bytes)
    ensures |b| == |s| && forall i | 0 <= i < |s| :: b[i] == s[i] as int % 256
  {
    seq(|s|, i requires 0 <= i < |s| => s[i] as int % 256)
  }

  function Label(p: Purpose): (r: Bytes) {
    AsciiBytes(LABEL_PREFIX + LabelName(p) + LABEL_SUFFIX)
  }

  lemma AsciiBytesInjective(s: string, t: string)
    requires IsPlain(s) && IsPlain(t)
    requires AsciiBytes(s) == AsciiBytes(t)
    ensures s == t
  {
    forall i | 0 <= i < |s| ensures s[i] == t[i] {
      assert AsciiBytes(s)[i] == s[i] as int && AsciiBytes(t)[i] == t[i] as int;
    }
  }

  lemma NamesArePlain(p: Purpose)
    ensures IsPlain(LabelName(p))
  {
    if p.AccessToken? || p.RefreshToken? || p.ApprovalRequest? || p.DynamicClient? {
      SignedNamesArePlain(p);
    } else if p.DynamicClientSecret? || p.TokenHash? {
      SecretNamesArePlain(p);
    } else {
      DerivedNamesArePlain(p);
    }
  }

  lemma SignedNamesArePlain(p: Purpose)
    requires p.AccessToken? || p.RefreshToken? || p.ApprovalRequest? || p.DynamicClient?
    ensures IsPlain(LabelName(p))
  {
  }

  lemma SecretNamesArePlain(p: Purpose)
    requires p.DynamicClientSecret? || p.TokenHash?
    ensures IsPlain(LabelName(p))
  {
  }

  lemma DerivedNamesArePlain(p: Purpose)
    requires p.RefreshTokenIdHash? || p.RefreshClientBinding? || p.AuditFingerprint?
    ensures IsPlain(LabelName(p))
  {
  }

  lemma LabelTextIsPlain(p: Purpose)
    ensures IsPlain(LABEL_PREFIX + LabelName(p) + LABEL_SUFFIX)
  {
    assert IsPlain("engram-mcp/oauth/") && IsPlain("/v1");
    NamesArePlain(p);
    PlainConcat(LABEL_PREFIX, LabelName(p));
    PlainConcat(LABEL_PREFIX + LabelName(p), LABEL_SUFFIX);
  }

  lemma PlainConcat(s: string, t: string)
    requires IsPlain(s) && IsPlain(t)
    ensures IsPlain(s + t)
  {
  }

  lemma NamesAreDistinct(p: Purpose, q: Purpose)
    requires LabelName(p) == LabelName(q)
    ensures p == q
  {
    // Two names of one length differ in their first letter.
    assert |LabelName(p)| == |LabelName(q)| && LabelName(p)[0] == LabelName(q)[0];
  }

  lemma LabelsAreDistinctAndNulFree(p: Purpose, q: Purpose)
    ensures NulFree(Label(p))
    ensures Label(p) == Label(q) ==> p == q
  {
    var s, t := LABEL_PREFIX + LabelName(p) + LABEL_SUFFIX, LABEL_PREFIX + LabelName(q) + LABEL_SUFFIX;
    LabelTextIsPlain(p);
    LabelTextIsPlain(q);
    assert forall i | 0 <= i < |Label(p)| :: Label(p)[i] == s[i] as int;
    if Label(p) == Label(q) {
      AsciiBytesInjective(s, t);
      assert LabelName(p) == s[|LABEL_PREFIX|..|s| - |LABEL_SUFFIX|];
      assert LabelName(q) == t[|LABEL_PREFIX|..|t| - |LABEL_SUFFIX|];
      NamesAreDistinct(p, q);
    }
  }

  /** A signed object as it travels: the payload and its tag. */
  datatype Signed = Signed(payload: Bytes, tag: Bytes)

  function Sign(mac: Bytes -> Bytes, p: Purpose, payload: Bytes): (r: Signed) {
    Signed(payload, mac(MacInput(Label(p), payload)))
  }

  predicate Verifies(mac: Bytes -> Bytes, p: Purpose, s: Signed) {
    s.tag == mac(MacInput(Label(p), s.payload))
  }

  /** HMAC under the server's key, idealised: different inputs get different tags. */
  ghost predicate Injective(mac: Bytes -> Bytes) {
    forall a, b :: mac(a) == mac(b) ==> a == b
  }

  /** A tag verifies for exactly the purpose and the payload it was made for. */
  lemma VerifiesOnlyAsSigned(mac: Bytes -> Bytes, p: Purpose, payload: Bytes, q: Purpose, other: Bytes)
    requires Injective(mac)
    ensures Verifies(mac, q, Signed(other, Sign(mac, p, payload).tag)) <==> p == q && payload == other
  {
    if Verifies(mac, q, Signed(other, Sign(mac, p, payload).tag)) {
      LabelsAreDistinctAndNulFree(p, q);
      LabelsAreDistinctAndNulFree(q, p);
      MacInputInjective(Label(p), payload, Label(q), other);
    }
  }
}
