/** Byte strings that are hashed or signed: equal material means equal fields. */
module Encodings {
  import opened Base
  import D = Decimal

  // ---- The signing manifest --------------------------------------------------------------------

  newtype byte = n: int | 0 <= n < 256

  datatype Kind = PolicyBundle | TrustRootSet | RevocationConfig | ResourceOverride | PrivilegedAgentClass

  function KindName(kind: Kind): string {
    match kind
    case PolicyBundle => "POLICY_BUNDLE"
    case TrustRootSet => "TRUST_ROOT_SET"
    case RevocationConfig => "REVOCATION_CONFIG"
    case ResourceOverride => "RESOURCE_OVERRIDE_CONFIG"
    case PrivilegedAgentClass => "PRIVILEGED_AGENT_CLASS_CONFIG"
  }

  function Ascii(s: string): seq<byte> {
    seq(|s|, i requires 0 <= i < |s| => (s[i] as int % 256) as byte)
  }

  const Prefix: seq<byte> := Ascii("thinkpixelag.signed-artifact/v1\0")

  /** The low `width` bytes of n, most significant first. */
  function BigEndian(n: nat, width: nat): (b: seq<byte>)
    ensures |b| == width
    decreases width, n
  {
    if width == 0 then [] else BigEndian(n / 256, width - 1) + [(n % 256) as byte]
  }

  function Pow256(width: nat): nat { if width == 0 then 1 else 256 * Pow256(width - 1) }

  lemma {:induction false} BigEndianInjective(m: nat, n: nat, width: nat)
    requires m < Pow256(width) && n < Pow256(width) && BigEndian(m, width) == BigEndian(n, width)
    ensures m == n
    decreases width
  {
    if width > 0 {
      var a, b := BigEndian(m, width), BigEndian(n, width);
      assert a[..width - 1] == BigEndian(m / 256, width - 1) && b[..width - 1] == BigEndian(n / 256, width - 1);
      assert a[width - 1] as int == m % 256 && b[width - 1] as int == n % 256;
      BigEndianInjective(m / 256, n / 256, width - 1);
    }
  }

  /** A length prefix of four bytes, which a longer value overflows silently. */
  function Field(value: seq<byte>): seq<byte> { BigEndian(|value|, 4) + value }

  function Fields(values: seq<seq<byte>>): seq<byte>
    decreases |values|
  {
    if values == [] then [] else Fields(values[..|values| - 1]) + Field(values[|values| - 1])
  }

  function Assemble(prefix: seq<byte>, values: seq<seq<byte>>, revision: nat): seq<byte> {
    prefix + Fields(values) + BigEndian(revision, 8)
  }

  function KindBytes(kind: Kind): (b: seq<byte>)
    ensures |b| < 64
  {
    Ascii(KindName(kind))
  }

  function Manifest(kind: Kind, version: seq<byte>, revision: nat, digest: seq<byte>): seq<byte> {
    Assemble(Prefix, [KindBytes(kind), version, digest], revision)
  }

  lemma FieldsOfThree(a: seq<byte>, b: seq<byte>, c: seq<byte>)
    ensures Fields([a, b, c]) == Field(a) + Field(b) + Field(c)
  {
    assert [a, b, c][..2] == [a, b];
    assert [a, b][..1] == [a];
    assert Fields([a]) == Field(a) by { assert [a][..0] == []; }
    assert Fields([a, b]) == Field(a) + Field(b);
  }

  lemma AppendInjective(a: seq<byte>, b: seq<byte>, c: seq<byte>, d: seq<byte>)
    requires a + b == c + d && |a| == |c|
    ensures a == c && b == d
  {
    assert a == (a + b)[..|a|] && c == (c + d)[..|c|];
    assert b == (a + b)[|a|..] && d == (c + d)[|c|..];
  }

  lemma KindsDiffer(k: Kind, l: Kind)
    requires KindBytes(k) == KindBytes(l)
    ensures k == l
  {
  }

  lemma RevisionInjective(f: seq<byte>, r: nat, f': seq<byte>, r': nat)
    requires r < Two64 && r' < Two64 && f + BigEndian(r, 8) == f' + BigEndian(r', 8)
    ensures f == f' && r == r'
  {
    AppendInjective(f, BigEndian(r, 8), f', BigEndian(r', 8));
    Pow256Of8();
    BigEndianInjective(r, r', 8);
  }

  lemma AssembleInjective(prefix: seq<byte>, a: seq<byte>, b: seq<byte>, c: seq<byte>, r: nat,
                          a': seq<byte>, b': seq<byte>, c': seq<byte>, r': nat)
    requires |a| < 0x1_0000_0000 && |a'| < 0x1_0000_0000 && |c| == |c'| && r < Two64 && r' < Two64
    requires Assemble(prefix, [a, b, c], r) == Assemble(prefix, [a', b', c'], r')
    ensures a == a' && b == b' && c == c' && r == r'
  {
    var f, f' := Fields([a, b, c]), Fields([a', b', c']);
    RevisionInjective(prefix + f, r, prefix + f', r');
    AppendInjective(prefix, f, prefix, f');
    FieldsOfThree(a, b, c);
    FieldsOfThree(a', b', c');
    FieldsInjective(a, b, c, a', b', c');
  }

  /** Even versions too long for their length prefix cannot be confused: the total length settles them. */
  lemma ManifestInjective(kind: Kind, version: seq<byte>, revision: nat, digest: seq<byte>,
                          kind': Kind, version': seq<byte>, revision': nat, digest': seq<byte>)
    requires |digest| == 32 && |digest'| == 32 && revision < Two64 && revision' < Two64
    requires Manifest(kind, version, revision, digest) == Manifest(kind', version', revision', digest')
    ensures kind == kind' && version == version' && revision == revision' && digest == digest'
  {
    AssembleInjective(Prefix, KindBytes(kind), version, digest, revision, KindBytes(kind'), version', digest', revision');
    KindsDiffer(kind, kind');
  }

  lemma Pow256Of8()
    ensures Pow256(8) == Two64 && Pow256(4) == 0x1_0000_0000
  {
  }

  lemma FieldInjective(a: seq<byte>, s: seq<byte>, b: seq<byte>, t: seq<byte>)
    requires |a| < 0x1_0000_0000 && |b| < 0x1_0000_0000 && Field(a) + s == Field(b) + t
    ensures a == b && s == t
  {
    assert Field(a) + s == BigEndian(|a|, 4) + (a + s) && Field(b) + t == BigEndian(|b|, 4) + (b + t);
    AppendInjective(BigEndian(|a|, 4), a + s, BigEndian(|b|, 4), b + t);
    Pow256Of8();
    BigEndianInjective(|a|, |b|, 4);
    AppendInjective(a, s, b, t);
  }

  /** With the lengths known already, the prefix need not be read. */
  lemma SizedFieldInjective(a: seq<byte>, b: seq<byte>)
    requires |a| == |b| && Field(a) == Field(b)
    ensures a == b
  {
    AppendInjective(BigEndian(|a|, 4), a, BigEndian(|b|, 4), b);
  }

  lemma FieldsInjective(a: seq<byte>, b: seq<byte>, c: seq<byte>, a': seq<byte>, b': seq<byte>, c': seq<byte>)
    requires |a| < 0x1_0000_0000 && |a'| < 0x1_0000_0000 && |c| == |c'|
    requires Field(a) + Field(b) + Field(c) == Field(a') + Field(b') + Field(c')
    ensures a == a' && b == b' && c == c'
  {
    var s, t := Field(b) + Field(c), Field(b') + Field(c');
    assert Field(a) + Field(b) + Field(c) == Field(a) + s && Field(a') + Field(b') + Field(c') == Field(a') + t;
    FieldInjective(a, s, a', t);
    AppendInjective(Field(b), Field(c), Field(b'), Field(c'));
    SizedFieldInjective(b, b');
    SizedFieldInjective(c, c');
  }

  /** The loop that appends each value behind its length. */
  method AppendFields(prefix: seq<byte>, values: seq<seq<byte>>) returns (manifest: seq<byte>)
    ensures manifest == prefix + Fields(values)
  {
    manifest := prefix;
    for i := 0 to |values|
      invariant manifest == prefix + Fields(values[..i])
    {
      assert values[..i + 1][..i] == values[..i];
      assert prefix + (Fields(values[..i]) + Field(values[i])) == prefix + Fields(values[..i]) + BigEndian(|values[i]|, 4) + values[i];
      manifest := manifest + BigEndian(|values[i]|, 4);
      manifest := manifest + values[i];
    }
    assert values[..|values|] == values;
  }

  method SigningManifest(kind: Kind, version: seq<byte>, revision: nat, digest: seq<byte>) returns (manifest: seq<byte>)
    ensures manifest == Manifest(kind, version, revision, digest)
  {
    manifest := AppendFields(Prefix, [KindBytes(kind), version, digest]);
    manifest := manifest + BigEndian(revision, 8);
  }

  // ---- Text fields separated by NUL ------------------------------------------------------------

  const Nul: char := '\0'

  predicate NulFree(s: string) { Nul !in s }

  lemma FirstNul(a: string, x: string, c: string, y: string)
    requires NulFree(a) && NulFree(c) && a + [Nul] + x == c + [Nul] + y
    ensures a == c && x == y
  {
    var s := a + [Nul] + x;
    assert s[|a|] == Nul && s[|c|] == Nul;
    assert forall i :: 0 <= i < |a| ==> s[i] == a[i] != Nul;
    assert forall i :: 0 <= i < |c| ==> s[i] == c[i] != Nul;
    assert a == s[..|a|] && c == s[..|c|];
    assert x == s[|a| + 1..] && y == s[|c| + 1..];
  }

  lemma LastNul(x: string, a: string, y: string, c: string)
    requires NulFree(a) && NulFree(c) && x + [Nul] + a == y + [Nul] + c
    ensures x == y && a == c
  {
    var s := x + [Nul] + a;
    assert s[|x|] == Nul && s[|y|] == Nul;
    assert forall i :: |x| < i < |s| ==> s[i] == a[i - |x| - 1] != Nul;
    assert forall i :: |y| < i < |s| ==> s[i] == c[i - |y| - 1] != Nul;
    assert x == s[..|x|] && y == s[..|y|];
    assert a == s[|x| + 1..] && c == s[|y| + 1..];
  }

  lemma FixedField(a: string, x: string, c: string, y: string)
    requires |a| == |c| && a + [Nul] + x == c + [Nul] + y
    ensures a == c && x == y
  {
    var s := a + [Nul] + x;
    assert a == s[..|a|] && c == s[..|c|];
    assert x == s[|a| + 1..] && y == s[|c| + 1..];
  }

  /** Signed decimal text, as %d prints it. */
  function Number(n: int): string { if n < 0 then "-" + D.Format(-n) else D.Format(n) }

  lemma NumberShape(n: int)
    ensures NulFree(Number(n)) && Number(n) != ""
    ensures if n < 0 then Number(n)[0] == '-' && Number(n)[1..] == D.Format(-n) else D.IsDigit(Number(n)[0])
  {
  }

  lemma FormatInjective(m: nat, n: nat)
    requires D.Format(m) == D.Format(n)
    ensures m == n
  {
    D.FormatRoundTrip(m);
    D.FormatRoundTrip(n);
  }

  lemma NumbersInjective(m: int, n: int)
    ensures NulFree(Number(m)) && NulFree(Number(n)) && (Number(m) == Number(n) ==> m == n)
  {
    NumberShape(m);
    NumberShape(n);
    if Number(m) == Number(n) {
      if m < 0 { FormatInjective(-m, -n); } else { FormatInjective(m, n); }
    }
  }

  // ---- Trusted usage ---------------------------------------------------------------------------

  /** Identifiers have a fixed shape; only the producer's event ID may hold any character, NUL included. */
  datatype Usage = Usage(tenant: string, run: string, producer: string, source: string, resource: string,
                         coefficient: int, scale: int, unit: string, observedAt: string)

  predicate ValidUsage(u: Usage) {
    && |u.tenant| == 36 && |u.run| == 36 && |u.producer| == 36
    && NulFree(u.resource) && NulFree(u.unit) && NulFree(u.observedAt)
  }

  /** The fields after the event ID. */
  function Tail(u: Usage): string {
    u.source + [Nul] + u.resource + [Nul] + Number(u.coefficient) + [Nul] + Number(u.scale) + [Nul] + u.unit + [Nul] + u.observedAt
  }

  function UsageMaterial(u: Usage): string {
    "trusted-usage/v1" + [Nul] + (u.tenant + [Nul] + (u.run + [Nul] + (u.producer + [Nul] + Tail(u))))
  }

  lemma TailInjective(u: Usage, v: Usage)
    requires ValidUsage(u) && ValidUsage(v) && Tail(u) == Tail(v)
    ensures u.source == v.source && u.resource == v.resource && u.coefficient == v.coefficient && u.scale == v.scale
    ensures u.unit == v.unit && u.observedAt == v.observedAt
  {
    NumbersInjective(u.coefficient, v.coefficient);
    NumbersInjective(u.scale, v.scale);
    var a1, b1 := u.source + [Nul] + u.resource, v.source + [Nul] + v.resource;
    var a2, b2 := a1 + [Nul] + Number(u.coefficient), b1 + [Nul] + Number(v.coefficient);
    var a3, b3 := a2 + [Nul] + Number(u.scale), b2 + [Nul] + Number(v.scale);
    var a4, b4 := a3 + [Nul] + u.unit, b3 + [Nul] + v.unit;
    LastNul(a4, u.observedAt, b4, v.observedAt);
    LastNul(a3, u.unit, b3, v.unit);
    LastNul(a2, Number(u.scale), b2, Number(v.scale));
    LastNul(a1, Number(u.coefficient), b1, Number(v.coefficient));
    LastNul(u.source, u.resource, v.source, v.resource);
  }

  /** Fixed shapes from the left and NUL-free fields from the right leave one reading of the event ID. */
  lemma UsageMaterialInjective(u: Usage, v: Usage)
    requires ValidUsage(u) && ValidUsage(v) && UsageMaterial(u) == UsageMaterial(v)
    ensures u == v
  {
    var p, q := u.producer + [Nul] + Tail(u), v.producer + [Nul] + Tail(v);
    var r, s := u.run + [Nul] + p, v.run + [Nul] + q;
    FixedField("trusted-usage/v1", u.tenant + [Nul] + r, "trusted-usage/v1", v.tenant + [Nul] + s);
    FixedField(u.tenant, r, v.tenant, s);
    FixedField(u.run, p, v.run, q);
    FixedField(u.producer, Tail(u), v.producer, Tail(v));
    TailInjective(u, v);
  }

  // ---- Cache keys ------------------------------------------------------------------------------

  datatype CacheInput = CacheInput(globalEpoch: int, policyEpoch: int, revocationEpoch: int, agentEpoch: int, maxAge: int,
                                   tenant: string, principal: string, action: string, resourceType: string, resource: string)

  /** The fields of the input, none of which is restricted in shape. */
  function Middle(x: CacheInput): string {
    Number(x.globalEpoch) + [Nul] + Number(x.policyEpoch) + [Nul] + Number(x.revocationEpoch) + [Nul] + Number(x.agentEpoch) + [Nul] +
    Number(x.maxAge) + [Nul] + x.tenant + [Nul] + x.principal + [Nul] + x.action + [Nul] + x.resourceType + ":" + x.resource
  }

  function CacheMaterial(contract: string, policyDigest: string, version: int, globalGeneration: int, tenantGeneration: int,
                         input: CacheInput, inputDigest: string): string {
    contract + [Nul] + (policyDigest + [Nul] + (Number(version) + [Nul] + (Number(globalGeneration) + [Nul] + (Number(tenantGeneration) + [Nul] +
      (Middle(input) + [Nul] + inputDigest)))))
  }

  /** The material determines policy, version, both generations and the digest of the whole input, whatever the middle holds. */
  lemma CacheMaterialInjective(contract: string, p: string, v: int, g: int, t: int, x: CacheInput, d: string,
                               p': string, v': int, g': int, t': int, x': CacheInput, d': string)
    requires NulFree(p) && NulFree(p') && |d| == |d'| == 71
    requires CacheMaterial(contract, p, v, g, t, x, d) == CacheMaterial(contract, p', v', g', t', x', d')
    ensures p == p' && v == v' && g == g' && t == t' && d == d' && Middle(x) == Middle(x')
  {
    var e, e' := Middle(x) + [Nul] + d, Middle(x') + [Nul] + d';
    var f, f' := Number(t) + [Nul] + e, Number(t') + [Nul] + e';
    var h, h' := Number(g) + [Nul] + f, Number(g') + [Nul] + f';
    var i, i' := Number(v) + [Nul] + h, Number(v') + [Nul] + h';
    NumbersInjective(v, v');
    NumbersInjective(g, g');
    NumbersInjective(t, t');
    FixedField(contract, p + [Nul] + i, contract, p' + [Nul] + i');
    FirstNul(p, i, p', i');
    FirstNul(Number(v), h, Number(v'), h');
    FirstNul(Number(g), f, Number(g'), f');
    FirstNul(Number(t), e, Number(t'), e');
    assert |Middle(x)| == |Middle(x')|;
    FixedField(Middle(x), d, Middle(x'), d');
  }
}
