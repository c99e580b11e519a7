/** The manifest codec (artifact/manifest.go): decoded JSON values on one side, canonical
    manifests on the other. */
module ManifestCodec {
  import opened Wrappers
  import opened Sequences
  import opened Numerals
  import opened Paths
  import opened Manifest

  /** A JSON value as the token reader delivers it: members keep their order and may repeat. */
  datatype Json = Str(text: string) | Array(items: seq<Json>) | Object(members: seq<Member>) | Other

  datatype Member = Member(key: string, value: Json)

  datatype EntryWire = EntryWire(path: string, kind: string, mode: string, digest: Option<string>)

  datatype Wire = Wire(schema: string, entries: seq<EntryWire>)

  const SCHEMA := "artifact.manifest.v1"

  // ----- modes -----

  function Pad(s: string): string {
    if |s| < 4 then Pad4(4 - |s|) + s else s
  }

  function Pad4(n: nat): string {
    if n == 0 then "" else "0" + Pad4(n - 1)
  }

  /** Mode.String: "%04o". */
  function ModeText(bits: nat): string {
    Pad(Digits(bits, 8))
  }

  /** ParseMode. */
  function ParseMode(text: string): Option<nat> {
    if |text| == 4 && text[0] == '0' && AllDigits(text, 8) then Some(Value(text, 8)) else None
  }

  lemma FourDigits(text: string)
    requires |text| == 4 && text[0] == '0' && AllDigits(text, 8)
    ensures Value(text, 8) == DigitValue(text[1]) * 64 + DigitValue(text[2]) * 8 + DigitValue(text[3]) < MODE_LIMIT
  {
    var a, b, c := text[..3], text[..2], text[..1];
    assert a[..2] == b && b[..1] == c && c[..0] == "";
    assert Value(c, 8) == Shift(0, 8, 0);
    assert Value(b, 8) == Shift(Value(c, 8), 8, DigitValue(text[1]));
    assert Value(a, 8) == Shift(Value(b, 8), 8, DigitValue(text[2]));
  }

  lemma ModeTextDigits(bits: nat)
    requires bits < MODE_LIMIT
    ensures ModeText(bits) == ['0', DigitChar(bits / 64), DigitChar(bits / 8 % 8), DigitChar(bits % 8)]
  {
    assert Pad4(1) == "0" && Pad4(2) == "0" + Pad4(1) && Pad4(3) == "0" + Pad4(2);
    if bits >= 8 {
      assert Digits(bits, 8) == Digits(bits / 8, 8) + [DigitChar(bits % 8)];
      if bits >= 64 {
        assert bits / 8 / 8 == bits / 64;
        assert Digits(bits / 8, 8) == [DigitChar(bits / 64)] + [DigitChar(bits / 8 % 8)];
      }
    }
  }

  lemma ModeParses(bits: nat)
    requires bits < MODE_LIMIT
    ensures ParseMode(ModeText(bits)) == Some(bits)
  {
    var x, y, z := bits / 64, bits / 8 % 8, bits % 8;
    OctalChar(x);
    OctalChar(y);
    OctalChar(z);
    ModeTextDigits(bits);
    hide ModeText, DigitChar, Value;
    FourDigits(['0', DigitChar(x), DigitChar(y), DigitChar(z)]);
    assert bits / 8 == x * 8 + y;
  }

  lemma OctalChar(d: nat)
    requires d < 8
    ensures DigitValue(DigitChar(d)) == d
  {
  }

  lemma OctalParts(x: nat, y: nat, z: nat)
    requires x < 8 && y < 8 && z < 8
    ensures var v := x * 64 + y * 8 + z; v / 64 == x && v / 8 % 8 == y && v % 8 == z
  {
    var v := x * 64 + y * 8 + z;
    assert v / 8 == x * 8 + y;
  }

  lemma ModeRenders(text: string)
    requires ParseMode(text).Some?
    ensures ParseMode(text).value < MODE_LIMIT && ModeText(ParseMode(text).value) == text
  {
    FourDigits(text);
    OctalParts(DigitValue(text[1]), DigitValue(text[2]), DigitValue(text[3]));
    ModeTextDigits(ParseMode(text).value);
  }

  // ----- entries -----

  function KindName(kind: Kind): string {
    match kind
    case RegularFile => "regular-file"
    case Directory => "directory"
  }

  function ToWire(e: Entry): EntryWire {
    EntryWire(e.path, KindName(e.kind), ModeText(e.mode), if e.kind.RegularFile? then Some(e.digest) else None)
  }

  function FromWire(w: EntryWire): Option<Entry> {
    var mode := ParseMode(w.mode);
    if !CanonicalPath(w.path) || mode.None? then None
    else if w.kind == KindName(RegularFile) then
      if w.digest.Some? && IsDigest(w.digest.value)
      then Some(Entry(w.path, RegularFile, mode.value, w.digest.value, true)) else None
    else if w.kind == KindName(Directory) && w.digest.None?
    then Some(Entry(w.path, Directory, mode.value, "", true)) else None
  }

  /** Decoding is the exact inverse of encoding, on both sides. */
  lemma EntryRoundTrip(e: Entry, w: EntryWire)
    ensures e.valid && EntryOk(e) ==> FromWire(ToWire(e)) == Some(e)
    ensures FromWire(w).Some? ==> FromWire(w).value.valid && EntryOk(FromWire(w).value) && ToWire(FromWire(w).value) == w
  {
    if e.mode < MODE_LIMIT {
      ModeParses(e.mode);
    }
    if ParseMode(w.mode).Some? {
      ModeRenders(w.mode);
    }
  }

  // ----- objects -----

  function Present(key: string, text: Option<string>): seq<Member> {
    if text.Some? then [Member(key, Str(text.value))] else []
  }

  /** The fields of an entry read so far. */
  datatype Partial = Partial(path: Option<string>, kind: Option<string>, mode: Option<string>, digest: Option<string>)

  const NOTHING := Partial(None, None, None, None)

  predicate Known(key: string) {
    key == "path" || key == "type" || key == "mode" || key == "digest"
  }

  function Get(p: Partial, key: string): Option<string>
    requires Known(key)
  {
    match key
    case "path" => p.path
    case "type" => p.kind
    case "mode" => p.mode
    case _ => p.digest
  }

  function Put(p: Partial, key: string, text: string): Partial
    requires Known(key)
  {
    match key
    case "path" => p.(path := Some(text))
    case "type" => p.(kind := Some(text))
    case "mode" => p.(mode := Some(text))
    case _ => p.(digest := Some(text))
  }

  predicate Filled(p: Partial, key: string) {
    Known(key) && Get(p, key).Some?
  }

  lemma FilledByPut(p: Partial, key: string, text: string)
    requires Known(key)
    ensures forall k :: Filled(Put(p, key, text), k) <==> Filled(p, k) || k == key
  {
  }

  /** Their members in canonical order. */
  function Fields(p: Partial): seq<Member> {
    Present("path", p.path) + Present("type", p.kind) + Present("mode", p.mode) + Present("digest", p.digest)
  }

  function Members(w: EntryWire): seq<Member> {
    Fields(Partial(Some(w.path), Some(w.kind), Some(w.mode), w.digest))
  }

  /** The object's members are those of w, each once, in any order. */
  ghost predicate EntryOf(json: Json, w: EntryWire) {
    json.Object? && multiset(json.members) == multiset(Members(w))
  }

  function KeyOf(m: Member): string { m.key }

  lemma FieldsAreDistinct(p: Partial)
    ensures DistinctOn(KeyOf, Fields(p))
  {
    assert forall x | x in Present("path", p.path) :: x.key == "path";
    assert forall x | x in Present("type", p.kind) :: x.key == "type";
    assert forall x | x in Present("mode", p.mode) :: x.key == "mode";
    assert forall x | x in Present("digest", p.digest) :: x.key == "digest";
  }

  /** Each member states one field. */
  lemma MembersState(w: EntryWire, text: string)
    ensures Member("path", Str(text)) in Members(w) <==> text == w.path
    ensures Member("type", Str(text)) in Members(w) <==> text == w.kind
    ensures Member("mode", Str(text)) in Members(w) <==> text == w.mode
    ensures Member("digest", Str(text)) in Members(w) <==> w.digest == Some(text)
  {
    var d := Present("digest", w.digest);
    assert Members(w) == [Member("path", Str(w.path)), Member("type", Str(w.kind)), Member("mode", Str(w.mode))] + d;
  }

  lemma EntryIsUnique(json: Json, v: EntryWire, w: EntryWire)
    requires EntryOf(json, v) && EntryOf(json, w)
    ensures v == w
  {
    NoRepeatsPermuted(Members(v), Members(w));
    MembersState(v, v.path);
    MembersState(w, v.path);
    MembersState(v, v.kind);
    MembersState(w, v.kind);
    MembersState(v, v.mode);
    MembersState(w, v.mode);
    forall text ensures v.digest == Some(text) <==> w.digest == Some(text) {
      MembersState(v, text);
      MembersState(w, text);
    }
    assert v.digest.Some? ==> v.digest == Some(v.digest.value);
    assert w.digest.Some? ==> w.digest == Some(w.digest.value);
  }

  ghost predicate HasKey(members: seq<Member>, key: string) {
    exists m :: m in members && m.key == key
  }

  /** The field rules: known keys, no key twice, texts only, nothing required missing. */
  ghost predicate EntryShape(json: Json) {
    && json.Object?
    && DistinctOn(KeyOf, json.members)
    && (forall m | m in json.members :: m.value.Str? && Known(m.key))
    && HasKey(json.members, "path") && HasKey(json.members, "type") && HasKey(json.members, "mode")
  }

  lemma EntryHasShape(json: Json, w: EntryWire)
    requires EntryOf(json, w)
    ensures EntryShape(json)
  {
    var all := Members(w);
    NoRepeatsPermuted(json.members, all);
    FieldsAreDistinct(Partial(Some(w.path), Some(w.kind), Some(w.mode), w.digest));
    DistinctOnPermuted(KeyOf, json.members, all);
    MembersState(w, w.path);
    MembersState(w, w.kind);
    MembersState(w, w.mode);
    assert Member("path", Str(w.path)) in json.members;
    assert Member("type", Str(w.kind)) in json.members;
    assert Member("mode", Str(w.mode)) in json.members;
  }

  /** The members read are exactly the fields filled in. */
  ghost predicate Read(members: seq<Member>, p: Partial) {
    multiset(members) == multiset(Fields(p))
  }

  lemma FieldsState(p: Partial, m: Member)
    ensures m in Fields(p) <==> Known(m.key) && m.value.Str? && Get(p, m.key) == Some(m.value.text)
  {
    var a, b, c, d := Present("path", p.path), Present("type", p.kind), Present("mode", p.mode), Present("digest", p.digest);
    assert m in a <==> m.key == "path" && m.value.Str? && p.path == Some(m.value.text);
    assert m in b <==> m.key == "type" && m.value.Str? && p.kind == Some(m.value.text);
    assert m in c <==> m.key == "mode" && m.value.Str? && p.mode == Some(m.value.text);
    assert m in d <==> m.key == "digest" && m.value.Str? && p.digest == Some(m.value.text);
  }

  lemma ReadShape(members: seq<Member>, p: Partial)
    requires Read(members, p)
    ensures forall key :: HasKey(members, key) <==> Filled(p, key)
    ensures forall m | m in members :: m.value.Str? && Known(m.key)
    ensures DistinctOn(KeyOf, members)
  {
    hide Fields, DistinctOn;
    FieldsAreDistinct(p);
    DistinctOnPermuted(KeyOf, members, Fields(p));
    NoRepeatsPermuted(members, Fields(p));
    forall m ensures m in members <==> Known(m.key) && m.value.Str? && Get(p, m.key) == Some(m.value.text) {
      FieldsState(p, m);
    }
    forall key | Filled(p, key) ensures HasKey(members, key) {
      assert Member(key, Str(Get(p, key).value)) in members;
    }
  }

  lemma ReadOne(members: seq<Member>, p: Partial, m: Member)
    requires Read(members, p) && Known(m.key) && m.value.Str? && Get(p, m.key).None?
    ensures Read(members + [m], Put(p, m.key, m.value.text))
  {
    hide Filled;
    var q := Put(p, m.key, m.value.text);
    assert Present(m.key, Some(m.value.text)) == [m];
    assert multiset(Fields(q)) == multiset(Fields(p)) + multiset{m};
  }

  lemma RepeatedKey(members: seq<Member>, i: nat)
    requires i < |members| && HasKey(members[..i], members[i].key)
    ensures !DistinctOn(KeyOf, members)
  {
    var m :| m in members[..i] && m.key == members[i].key;
    var k :| 0 <= k < i && members[..i][k] == m;
    assert KeyOf(members[k]) == KeyOf(members[i]);
  }

  lemma NothingRead()
    ensures Read([], NOTHING) && forall key :: !Filled(NOTHING, key)
  {
  }

  /** The token loop of decodeEntryObject with its `seen` map. */
  method ReadMembers(members: seq<Member>) returns (fields: Option<Partial>)
    ensures fields.Some? ==> Read(members, fields.value)
    ensures fields.None? ==> !DistinctOn(KeyOf, members) || exists m :: m in members && !(m.value.Str? && Known(m.key))
  {
    NothingRead();
    hide Read, Get, Put, Known, HasKey, DistinctOn;
    var seen: set<string> := {};
    var p := NOTHING;
    for i := 0 to |members|
      invariant Read(members[..i], p)
      invariant forall key :: key in seen <==> Filled(p, key)
    {
      var m := members[i];
      if m.key in seen {
        ReadShape(members[..i], p);
        RepeatedKey(members, i);
        return None;
      }
      seen := seen + {m.key};
      if !m.value.Str? || !Known(m.key) {
        assert m in members;
        return None;
      }
      ReadOne(members[..i], p, m);
      FilledByPut(p, m.key, m.value.text);
      assert members[..i + 1] == members[..i] + [m];
      p := Put(p, m.key, m.value.text);
    }
    assert members[..|members|] == members;
    return Some(p);
  }

  lemma Complete(json: Json, p: Partial)
    requires json.Object? && Read(json.members, p)
    ensures EntryShape(json) <==> p.path.Some? && p.kind.Some? && p.mode.Some?
    ensures EntryShape(json) ==> EntryOf(json, EntryWire(p.path.value, p.kind.value, p.mode.value, p.digest))
  {
    ReadShape(json.members, p);
    assert Filled(p, "path") <==> p.path.Some?;
    assert Filled(p, "type") <==> p.kind.Some?;
    assert Filled(p, "mode") <==> p.mode.Some?;
  }

  method DecodeEntryObject(json: Json) returns (wire: Option<EntryWire>)
    ensures wire.Some? <==> EntryShape(json)
    ensures wire.Some? ==> EntryOf(json, wire.value)
  {
    if !json.Object? {
      return None;
    }
    var fields := ReadMembers(json.members);
    if fields.None? {
      return None;
    }
    Complete(json, fields.value);
    if fields.value.path.None? || fields.value.kind.None? || fields.value.mode.None? {
      return None;
    }
    var p := fields.value;
    return Some(EntryWire(p.path.value, p.kind.value, p.mode.value, p.digest));
  }

  // ----- the manifest object -----

  ghost predicate EntriesOf(items: seq<Json>, wires: seq<EntryWire>) {
    |items| == |wires| && forall i | 0 <= i < |items| :: EntryOf(items[i], wires[i])
  }

  ghost predicate EntriesShape(json: Json) {
    json.Array? && forall i | 0 <= i < |json.items| :: EntryShape(json.items[i])
  }

  method DecodeEntryArray(json: Json) returns (wires: Option<seq<EntryWire>>)
    ensures wires.Some? <==> EntriesShape(json)
    ensures wires.Some? ==> EntriesOf(json.items, wires.value)
  {
    if !json.Array? {
      return None;
    }
    var entries: seq<EntryWire> := [];
    for i := 0 to |json.items|
      invariant |entries| == i
      invariant forall k | 0 <= k < i :: EntryShape(json.items[k]) && EntryOf(json.items[k], entries[k])
    {
      var wire := DecodeEntryObject(json.items[i]);
      if wire.None? {
        return None;
      }
      entries := entries + [wire.value];
    }
    return Some(entries);
  }

  /** The object has a schema text and an entries array, in either order, and nothing else. */
  ghost predicate WireOf(json: Json, wire: Wire) {
    json.Object? && exists items ::
      && multiset(json.members) == multiset{Member("schema", Str(wire.schema)), Member("entries", Array(items))}
      && EntriesOf(items, wire.entries)
  }

  lemma TwoMembers(members: seq<Member>, a: Member, b: Member)
    requires multiset(members) == multiset{a, b}
    ensures members == [a, b] || members == [b, a]
  {
    assert |members| == |multiset(members)| == 2;
    assert members == [members[0], members[1]];
    assert members[0] in multiset(members) && members[1] in multiset(members);
    assert multiset([a, a])[a] >= 2 && multiset([b, b])[b] >= 2;
  }

  lemma {:induction false} EntriesAreUnique(items: seq<Json>, v: seq<EntryWire>, w: seq<EntryWire>)
    requires EntriesOf(items, v) && EntriesOf(items, w)
    ensures v == w
  {
    forall i | 0 <= i < |items| ensures v[i] == w[i] {
      EntryIsUnique(items[i], v[i], w[i]);
    }
  }

  /** Decoding is unambiguous. */
  lemma WireIsUnique(json: Json, v: Wire, w: Wire)
    requires WireOf(json, v) && WireOf(json, w)
    ensures v == w
  {
    var a :| multiset(json.members) == multiset{Member("schema", Str(v.schema)), Member("entries", Array(a))}
             && EntriesOf(a, v.entries);
    var b :| multiset(json.members) == multiset{Member("schema", Str(w.schema)), Member("entries", Array(b))}
             && EntriesOf(b, w.entries);
    TwoMembers(json.members, Member("schema", Str(v.schema)), Member("entries", Array(a)));
    TwoMembers(json.members, Member("schema", Str(w.schema)), Member("entries", Array(b)));
    EntriesAreUnique(a, v.entries, w.entries);
  }

  ghost predicate TopMember(m: Member) {
    if m.key == "schema" then m.value.Str? else m.key == "entries" && EntriesShape(m.value)
  }

  ghost predicate WireShape(json: Json) {
    && json.Object?
    && DistinctOn(KeyOf, json.members)
    && (forall m | m in json.members :: TopMember(m))
    && HasKey(json.members, "schema") && HasKey(json.members, "entries")
  }

  lemma WireHasShape(json: Json, wire: Wire)
    requires WireOf(json, wire)
    ensures WireShape(json)
  {
    hide EntryOf, EntryShape;
    var items :| multiset(json.members) == multiset{Member("schema", Str(wire.schema)), Member("entries", Array(items))}
                 && EntriesOf(items, wire.entries);
    var a, b := Member("schema", Str(wire.schema)), Member("entries", Array(items));
    TwoMembers(json.members, a, b);
    assert a in json.members && b in json.members && KeyOf(a) != KeyOf(b);
    forall i | 0 <= i < |items| ensures EntryShape(items[i]) {
      EntryHasShape(items[i], wire.entries[i]);
    }
  }

  function PresentItems(items: Option<seq<Json>>): seq<Member> {
    if items.Some? then [Member("entries", Array(items.value))] else []
  }

  /** What the loop has read: at most a schema and at most an entries array. */
  datatype Top = Top(schema: Option<string>, entries: Option<seq<EntryWire>>)

  ghost predicate TopEntries(items: Option<seq<Json>>, entries: Option<seq<EntryWire>>) {
    && (items.Some? <==> entries.Some?)
    && (items.Some? ==> EntriesOf(items.value, entries.value) && EntriesShape(Array(items.value)))
  }

  function TopMembers(top: Top, items: Option<seq<Json>>): seq<Member> {
    Present("schema", top.schema) + PresentItems(items)
  }

  ghost predicate TopRead(members: seq<Member>, top: Top) {
    exists items :: multiset(members) == multiset(TopMembers(top, items)) && TopEntries(items, top.entries)
  }

  lemma SchemaRead(members: seq<Member>, top: Top, m: Member)
    requires TopRead(members, top) && m.key == "schema" && m.value.Str? && top.schema.None?
    ensures TopRead(members + [m], top.(schema := Some(m.value.text)))
  {
    var items :| multiset(members) == multiset(TopMembers(top, items)) && TopEntries(items, top.entries);
    assert multiset(members + [m]) == multiset(TopMembers(top.(schema := Some(m.value.text)), items));
  }

  lemma EntriesRead(members: seq<Member>, top: Top, m: Member, wires: seq<EntryWire>)
    requires TopRead(members, top) && m.key == "entries" && EntriesShape(m.value) && top.entries.None?
    requires EntriesOf(m.value.items, wires)
    ensures TopRead(members + [m], top.(entries := Some(wires)))
  {
    var items := Some(m.value.items);
    assert multiset(members + [m]) == multiset(TopMembers(top.(entries := Some(wires)), items));
  }

  lemma TopReadKeys(members: seq<Member>, top: Top)
    requires TopRead(members, top)
    ensures HasKey(members, "schema") <==> top.schema.Some?
    ensures HasKey(members, "entries") <==> top.entries.Some?
  {
    var items :| multiset(members) == multiset(TopMembers(top, items)) && TopEntries(items, top.entries);
    NoRepeatsPermuted(members, TopMembers(top, items));
    KeysPresent(top, items);
  }

  lemma KeysPresent(top: Top, items: Option<seq<Json>>)
    ensures HasKey(TopMembers(top, items), "schema") <==> top.schema.Some?
    ensures HasKey(TopMembers(top, items), "entries") <==> items.Some?
  {
    var all := TopMembers(top, items);
    assert forall m | m in Present("schema", top.schema) :: m.key == "schema";
    assert forall m | m in PresentItems(items) :: m.key == "entries";
    if top.schema.Some? { assert Member("schema", Str(top.schema.value)) in all; }
    if items.Some? { assert Member("entries", Array(items.value)) in all; }
  }

  lemma TopReadMembers(members: seq<Member>, top: Top, m: Member)
    requires TopRead(members, top) && m in members
    ensures TopMember(m)
  {
    var items :| multiset(members) == multiset(TopMembers(top, items)) && TopEntries(items, top.entries);
    assert m in multiset(TopMembers(top, items));
    assert m in Present("schema", top.schema) || m in PresentItems(items);
  }

  lemma TopReadDistinct(members: seq<Member>, top: Top)
    requires TopRead(members, top)
    ensures DistinctOn(KeyOf, members)
  {
    hide EntriesOf, EntriesShape;
    var items :| multiset(members) == multiset(TopMembers(top, items)) && TopEntries(items, top.entries);
    DistinctOnPermuted(KeyOf, members, TopMembers(top, items));
  }

  /** One member: the two cases of the switch, or a refusal. */
  method ReadTopMember(ghost before: seq<Member>, top: Top, m: Member) returns (next: Option<Top>)
    requires TopRead(before, top)
    ensures next.Some? ==> TopRead(before + [m], next.value)
    ensures next.None? ==> HasKey(before, m.key) || !TopMember(m)
  {
    TopReadKeys(before, top);
    if m.key == "schema" {
      if top.schema.Some? || !m.value.Str? {
        return None;
      }
      SchemaRead(before, top, m);
      return Some(top.(schema := Some(m.value.text)));
    }
    if m.key == "entries" {
      if top.entries.Some? {
        return None;
      }
      var wires := DecodeEntryArray(m.value);
      if wires.None? {
        return None;
      }
      EntriesRead(before, top, m, wires.value);
      return Some(top.(entries := wires));
    }
    return None;
  }

  /** decodeManifestWire's loop over the members of the manifest object. */
  method ReadTop(members: seq<Member>) returns (top: Option<Top>)
    ensures top.Some? ==> TopRead(members, top.value)
    ensures top.None? ==> !DistinctOn(KeyOf, members) || exists m :: m in members && !TopMember(m)
  {
    var read := Top(None, None);
    assert TopMembers(read, None) == [];
    assert TopRead([], read);
    hide TopRead, TopMember, HasKey, DistinctOn;
    for i := 0 to |members|
      invariant TopRead(members[..i], read)
    {
      assert members[i] in members && members[..i + 1] == members[..i] + [members[i]];
      var next := ReadTopMember(members[..i], read, members[i]);
      if next.None? {
        if HasKey(members[..i], members[i].key) {
          RepeatedKey(members, i);
        }
        return None;
      }
      read := next.value;
    }
    assert members[..|members|] == members;
    return Some(read);
  }

  lemma TopComplete(json: Json, top: Top)
    requires json.Object? && TopRead(json.members, top)
    ensures WireShape(json) <==> top.schema.Some? && top.entries.Some?
  {
    TopReadKeys(json.members, top);
    TopReadDistinct(json.members, top);
    forall m | m in json.members ensures TopMember(m) {
      TopReadMembers(json.members, top, m);
    }
  }

  lemma TopIsWire(json: Json, top: Top)
    requires json.Object? && TopRead(json.members, top) && top.schema.Some? && top.entries.Some?
    ensures WireOf(json, Wire(top.schema.value, top.entries.value))
  {
    var items :| multiset(json.members) == multiset(TopMembers(top, items)) && TopEntries(items, top.entries);
    var a, b := Member("schema", Str(top.schema.value)), Member("entries", Array(items.value));
    assert TopMembers(top, items) == [a, b];
    assert multiset(json.members) == multiset{a, b};
  }

  method DecodeManifest(json: Json) returns (wire: Option<Wire>)
    ensures wire.Some? <==> WireShape(json)
    ensures wire.Some? ==> WireOf(json, wire.value)
  {
    if !json.Object? {
      return None;
    }
    var top := ReadTop(json.members);
    if top.None? {
      return None;
    }
    TopComplete(json, top.value);
    if top.value.schema.None? || top.value.entries.None? {
      return None;
    }
    TopIsWire(json, top.value);
    return Some(Wire(top.value.schema.value, top.value.entries.value));
  }

  // ----- MarshalJSON and ParseManifest -----

  function Wires(m: seq<Entry>): (wires: seq<EntryWire>)
    ensures |wires| == |m|
  {
    Mapped(ToWire, m)
  }

  function EncodeEntry(w: EntryWire): Json {
    Object(Members(w))
  }

  function Encoding(m: seq<Entry>): Json {
    Object([Member("schema", Str(SCHEMA)), Member("entries", Array(Mapped(EncodeEntry, Wires(m))))])
  }

  method MarshalJson(m: seq<Entry>) returns (json: Json)
    ensures json == Encoding(m)
  {
    var items: seq<Json> := [];
    for i := 0 to |m|
      invariant items == Mapped(EncodeEntry, Wires(m[..i]))
    {
      assert m[..i + 1][..i] == m[..i];
      var wires := Wires(m[..i + 1]);
      assert wires[..i] == Wires(m[..i]) && wires[i] == ToWire(m[i]);
      items := items + [EncodeEntry(ToWire(m[i]))];
    }
    assert m[..|m|] == m;
    return Object([Member("schema", Str(SCHEMA)), Member("entries", Array(items))]);
  }

  /** json is a spelling of the manifest m: right schema, its entries in any order, members
      in any order. */
  ghost predicate Spells(json: Json, m: seq<Entry>) {
    exists wire :: WireOf(json, wire) && wire.schema == SCHEMA && multiset(wire.entries) == multiset(Wires(m))
  }

  function Unwired(w: EntryWire): Entry {
    if FromWire(w).Some? then FromWire(w).value else Entry("", Directory, 0, "", false)
  }

  method DecodeEntries(wires: seq<EntryWire>) returns (entries: Option<seq<Entry>>)
    ensures entries.Some? <==> forall w | w in wires :: FromWire(w).Some?
    ensures entries.Some? ==> entries.value == Mapped(Unwired, wires)
  {
    var decoded: seq<Entry> := [];
    for i := 0 to |wires|
      invariant decoded == Mapped(Unwired, wires[..i]) && forall k | 0 <= k < i :: FromWire(wires[k]).Some?
    {
      assert wires[..i + 1][..i] == wires[..i];
      var entry := FromWire(wires[i]);
      if entry.None? {
        assert wires[i] in wires;
        return None;
      }
      decoded := decoded + [entry.value];
    }
    assert wires[..|wires|] == wires;
    return Some(decoded);
  }

  /** ParseManifest accepts exactly the spellings of manifests, and returns what they spell. */
  method ParseManifest(json: Json) returns (m: Option<seq<Entry>>)
    ensures m.Some? ==> ManifestOk(m.value) && Spells(json, m.value)
    ensures m.None? ==> forall n | ManifestOk(n) :: !Spells(json, n)
  {
    var wire := DecodeManifest(json);
    if wire.None? {
      forall n ensures !Spells(json, n) {
        NothingSpelled(json, n);
      }
      return None;
    }
    if wire.value.schema != SCHEMA {
      forall n ensures !Spells(json, n) {
        SpelledBy(json, wire.value, n);
      }
      return None;
    }
    var entries := DecodeEntries(wire.value.entries);
    if entries.None? {
      forall n | ManifestOk(n) ensures !Spells(json, n) {
        if Spells(json, n) {
          SpelledEntries(json, wire.value, n);
        }
      }
      return None;
    }
    DecodedOk(wire.value.entries);
    var made := NewManifest(entries.value);
    if made.Err? {
      forall n | ManifestOk(n) ensures !Spells(json, n) {
        if Spells(json, n) {
          SpelledEntries(json, wire.value, n);
          SamePaths(entries.value, n);
        }
      }
      return None;
    }
    NewManifestOk(entries.value);
    MappedPermuted(ToWire, entries.value, made.value);
    return Some(made.value);
  }

  lemma NothingSpelled(json: Json, n: seq<Entry>)
    requires !WireShape(json)
    ensures !Spells(json, n)
  {
    if Spells(json, n) {
      var wire :| WireOf(json, wire);
      WireHasShape(json, wire);
    }
  }

  lemma SpelledBy(json: Json, wire: Wire, n: seq<Entry>)
    requires WireOf(json, wire)
    ensures Spells(json, n) ==> wire.schema == SCHEMA && multiset(wire.entries) == multiset(Wires(n))
  {
    if Spells(json, n) {
      var w :| WireOf(json, w) && w.schema == SCHEMA && multiset(w.entries) == multiset(Wires(n));
      WireIsUnique(json, wire, w);
    }
  }

  lemma {:induction false} UnwireWires(m: seq<Entry>)
    requires Constructed(m) && AllValid(m)
    ensures Mapped(Unwired, Wires(m)) == m
    ensures forall w | w in Wires(m) :: FromWire(w).Some?
    decreases |m|
  {
    if m != [] {
      var last := m[|m| - 1];
      assert last in m;
      UnwireWires(m[..|m| - 1]);
      EntryRoundTrip(last, ToWire(last));
      assert Wires(m)[..|m| - 1] == Wires(m[..|m| - 1]) && Wires(m)[|m| - 1] == ToWire(last);
      assert Wires(m) == Wires(m[..|m| - 1]) + [ToWire(last)];
    }
  }

  lemma SpelledEntries(json: Json, wire: Wire, n: seq<Entry>)
    requires WireOf(json, wire) && ManifestOk(n) && Spells(json, n)
    ensures forall w | w in wire.entries :: FromWire(w).Some?
    ensures multiset(Mapped(Unwired, wire.entries)) == multiset(n)
  {
    SpelledBy(json, wire, n);
    UnwireWires(n);
    NoRepeatsPermuted(wire.entries, Wires(n));
    MappedPermuted(Unwired, wire.entries, Wires(n));
  }

  lemma DecodedOk(wires: seq<EntryWire>)
    requires forall w | w in wires :: FromWire(w).Some?
    ensures Constructed(Mapped(Unwired, wires)) && AllValid(Mapped(Unwired, wires))
    ensures Wires(Mapped(Unwired, wires)) == wires
  {
    hide FromWire, ToWire, EntryOk, Unwired, Mapped;
    var m := Mapped(Unwired, wires);
    MappedAt(Unwired, wires);
    MappedAt(ToWire, m);
    forall i | 0 <= i < |wires| ensures m[i].valid && EntryOk(m[i]) && Wires(m)[i] == wires[i] {
      assert wires[i] in wires;
      DecodedOne(wires[i]);
    }
  }

  lemma DecodedOne(w: EntryWire)
    requires FromWire(w).Some?
    ensures Unwired(w).valid && EntryOk(Unwired(w)) && ToWire(Unwired(w)) == w
  {
    EntryRoundTrip(Unwired(w), w);
  }

  // ----- what the codec promises -----

  lemma {:induction false} EncodedEntries(wires: seq<EntryWire>)
    ensures EntriesOf(Mapped(EncodeEntry, wires), wires)
  {
    MappedAt(EncodeEntry, wires);
  }

  /** MarshalJSON writes a spelling of its manifest. */
  lemma EncodingSpells(m: seq<Entry>)
    ensures Spells(Encoding(m), m)
  {
    EncodedEntries(Wires(m));
    var items := Mapped(EncodeEntry, Wires(m));
    var wire := Wire(SCHEMA, Wires(m));
    assert multiset(Encoding(m).members) == multiset{Member("schema", Str(wire.schema)), Member("entries", Array(items))};
    assert WireOf(Encoding(m), wire);
  }

  /** A JSON value spells at most one manifest.  With ParseManifest and EncodingSpells:
      parsing a marshalled manifest returns it, and marshalling a parsed value gives the
      one canonical spelling, whatever order the value used. */
  lemma SpellsOne(json: Json, m: seq<Entry>, n: seq<Entry>)
    requires ManifestOk(m) && ManifestOk(n) && Spells(json, m) && Spells(json, n)
    ensures m == n
  {
    var wire :| WireOf(json, wire);
    SpelledEntries(json, wire, m);
    SpelledEntries(json, wire, n);
    PathOrderIsUnique(m, n);
  }

  /** The round trip, run. */
  method RoundTrip(m: seq<Entry>) returns (parsed: Option<seq<Entry>>)
    requires ManifestOk(m)
    ensures parsed == Some(m)
  {
    var json := MarshalJson(m);
    EncodingSpells(m);
    parsed := ParseManifest(json);
    SpellsOne(json, m, parsed.value);
  }

  /** Values that hold the same wire entries in any order are re-encoded alike. */
  method ReencodeTwo(a: Json, b: Json, v: Wire, w: Wire) returns (x: Option<Json>, y: Option<Json>)
    requires WireOf(a, v) && WireOf(b, w)
    requires v.schema == w.schema && multiset(v.entries) == multiset(w.entries)
    ensures x == y
  {
    var m := ParseManifest(a);
    var n := ParseManifest(b);
    assert forall k | Spells(a, k) :: Spells(b, k) by {
      forall k | Spells(a, k) ensures Spells(b, k) { SpelledBy(a, v, k); }
    }
    assert forall k | Spells(b, k) :: Spells(a, k) by {
      forall k | Spells(b, k) ensures Spells(a, k) { SpelledBy(b, w, k); }
    }
    if m.None? {
      return None, None;
    }
    SpellsOne(b, m.value, n.value);
    var json := MarshalJson(m.value);
    var again := MarshalJson(n.value);
    return Some(json), Some(again);
  }
}
