/** The byte stream that a bundle's content address hashes (deriveBundleID in
    artifact/bundle.go). */
module BundleIdentity {
  import opened Numerals
  import opened Encoding
  import opened Manifest
  import ManifestCodec

  const DOMAIN := "artifact.bundle.v1\0"

  function ModeBytes(bits: nat): (text: string)
    ensures |text| == 4
  {
    Raw(BigEndian(bits, 4))
  }

  function Field(text: string): string {
    Frame(RawHeader, text)
  }

  function EntryStream(e: Entry): string {
    Field(e.path) + (Field(ManifestCodec.KindName(e.kind)) + (ModeBytes(e.mode) + Field(e.digest)))
  }

  function EntriesStream(m: seq<Entry>): string {
    if m == [] then "" else EntryStream(m[0]) + EntriesStream(m[1..])
  }

  function IdStream(m: seq<Entry>): string {
    DOMAIN + (RawHeader(|m|) + EntriesStream(m))
  }

  /** The running hash, as the bytes written to it. */
  class RunningHash {
    var written: string

    constructor ()
      ensures written == ""
    {
      written := "";
    }

    method Write(text: string)
      modifies this
      ensures written == old(written) + text
    {
      written := written + text;
    }

    method WriteIdentityField(text: string)
      modifies this
      ensures written == old(written) + Field(text)
    {
      Write(RawHeader(|text|));
      Write(text);
    }

    method WriteEntry(e: Entry)
      modifies this
      ensures written == old(written) + EntryStream(e)
    {
      WriteIdentityField(e.path);
      WriteIdentityField(ManifestCodec.KindName(e.kind));
      Write(ModeBytes(e.mode));
      WriteIdentityField(e.digest);
    }
  }

  lemma StreamStep(m: seq<Entry>, i: nat, before: string)
    requires i < |m|
    ensures before + EntriesStream(m[i..]) == (before + EntryStream(m[i])) + EntriesStream(m[i + 1..])
  {
    assert m[i..][0] == m[i] && m[i..][1..] == m[i + 1..];
  }

  method DeriveBundleId(m: seq<Entry>) returns (hash: RunningHash)
    ensures fresh(hash) && hash.written == IdStream(m)
  {
    hide EntryStream;
    hash := new RunningHash();
    hash.Write(DOMAIN);
    hash.Write(RawHeader(|m|));
    for i := 0 to |m|
      invariant hash.written + EntriesStream(m[i..]) == IdStream(m)
      invariant fresh(hash)
    {
      StreamStep(m, i, hash.written);
      hash.WriteEntry(m[i]);
    }
  }

  predicate StorableEntry(e: Entry) {
    e.valid && |e.path| < UINT64_LIMIT && |e.digest| < UINT64_LIMIT && e.mode < UINT32_LIMIT
  }

  /** Lengths and modes are ones Go can hold. */
  ghost predicate Storable(m: seq<Entry>) {
    |m| < UINT64_LIMIT && forall e | e in m :: StorableEntry(e)
  }

  lemma FieldIsPrefixCode(f: string, g: string, s: string, t: string)
    requires |f| < UINT64_LIMIT && |g| < UINT64_LIMIT && Field(f) + s == Field(g) + t
    ensures f == g && s == t
  {
    RawHeaderOk();
    FrameIsPrefixCode(RawHeader, 8, f, g, s, t);
  }

  lemma ModeIsPrefixCode(m: nat, n: nat, s: string, t: string)
    requires m < UINT32_LIMIT && n < UINT32_LIMIT && ModeBytes(m) + s == ModeBytes(n) + t
    ensures m == n && s == t
  {
    var all := ModeBytes(m) + s;
    assert all[..4] == ModeBytes(m) && all[4..] == s;
    assert all[..4] == ModeBytes(n) && all[4..] == t;
    RawInjective(BigEndian(m, 4), BigEndian(n, 4));
    Uint32Fits(m);
    Uint32Fits(n);
    BigEndianInjective(m, n, 4);
  }

  /** An entry at the front of the stream can be read off in only one way. */
  lemma EntryIsPrefixCode(e: Entry, f: Entry, s: string, t: string)
    requires StorableEntry(e) && StorableEntry(f)
    requires EntryStream(e) + s == EntryStream(f) + t
    ensures e == f && s == t
  {
    var ke, kf := ManifestCodec.KindName(e.kind), ManifestCodec.KindName(f.kind);
    var e3, f3 := Field(e.digest) + s, Field(f.digest) + t;
    var e2, f2 := ModeBytes(e.mode) + e3, ModeBytes(f.mode) + f3;
    StreamParts(Field(e.path), Field(ke), ModeBytes(e.mode), Field(e.digest), s);
    StreamParts(Field(f.path), Field(kf), ModeBytes(f.mode), Field(f.digest), t);
    FieldIsPrefixCode(e.path, f.path, Field(ke) + e2, Field(kf) + f2);
    FieldIsPrefixCode(ke, kf, e2, f2);
    ModeIsPrefixCode(e.mode, f.mode, e3, f3);
    FieldIsPrefixCode(e.digest, f.digest, s, t);
    KindNamesDiffer(e.kind, f.kind);
  }

  lemma StreamParts(a: string, b: string, c: string, d: string, s: string)
    ensures (a + (b + (c + d))) + s == a + (b + (c + (d + s)))
  {
  }

  lemma KindNamesDiffer(a: Kind, b: Kind)
    requires ManifestCodec.KindName(a) == ManifestCodec.KindName(b)
    ensures a == b
  {
    assert ManifestCodec.KindName(a)[0] == ManifestCodec.KindName(b)[0];
  }

  lemma {:induction false} EntriesStreamInjective(m: seq<Entry>, n: seq<Entry>)
    requires |m| == |n| && EntriesStream(m) == EntriesStream(n)
    requires forall e | e in m + n :: StorableEntry(e)
    ensures m == n
  {
    hide StorableEntry, EntryStream;
    if m != [] {
      assert m[0] in m + n && n[0] in m + n;
      EntryIsPrefixCode(m[0], n[0], EntriesStream(m[1..]), EntriesStream(n[1..]));
      assert forall e | e in m[1..] + n[1..] :: e in m + n;
      EntriesStreamInjective(m[1..], n[1..]);
      assert m == [m[0]] + m[1..] && n == [n[0]] + n[1..];
    }
  }

  /** Different manifests hash different streams. */
  lemma IdStreamInjective(m: seq<Entry>, n: seq<Entry>)
    requires Storable(m) && Storable(n)
    ensures IdStream(m) == IdStream(n) <==> m == n
  {
    if IdStream(m) == IdStream(n) {
      RawHeaderOk();
      var d := |DOMAIN|;
      var s, t := RawHeader(|m|) + EntriesStream(m), RawHeader(|n|) + EntriesStream(n);
      assert IdStream(m)[d..] == s && IdStream(n)[d..] == t;
      assert s[..8] == RawHeader(|m|) && t[..8] == RawHeader(|n|);
      assert s[8..] == EntriesStream(m) && t[8..] == EntriesStream(n);
      EntriesStreamInjective(m, n);
    }
  }
}
