/**
  The dump of the NTS server key ring: four keys in rotation order, written as text and read
  back, so that cookies issued before a restart stay valid.
 */
module KeyDumps {
  import opened Common
  import opened KeyText

  const MAX_SERVER_KEYS: nat := 4
  const SIV_MAX_KEY_LENGTH: nat := 32
  const DUMP_IDENTIFIER: string := "NKS1"
  const OLD_DUMP_IDENTIFIER: string := "NKS0"

  datatype DumpKey = DumpKey(id: U32, algorithm: I32, key: Bytes)

  const NO_KEY: DumpKey := DumpKey(0, 0, [])

  datatype LoadedKeys<Age> = LoadedKeys(keys: seq<DumpKey>, current: nat, age: Age)

  /** `SIV_GetKeyLength`. */
  type KeyLength = I32 -> I32

  /** Slots count modulo four. */
  function Slot(i: nat): (r: nat)
    ensures r < MAX_SERVER_KEYS
  {
    i % MAX_SERVER_KEYS
  }

  lemma SlotAdd(i: nat, k: nat)
    ensures Slot(i + k) == Slot(Slot(i) + k)
  {}

  // ---- Writing.

  /** The slot written on line `i`: the ring from the oldest key to the one ahead of the current. */
  function Written(current: nat, i: nat): nat { Slot(current + i + 2) }

  predicate Printable(k: DumpKey, len: KeyLength) {
    0 <= len(k.algorithm) <= SIV_MAX_KEY_LENGTH && len(k.algorithm) <= |k.key|
  }

  function KeyLine(k: DumpKey, len: KeyLength): string
    requires Printable(k, len)
  {
    ShowId(k.id) + " " + BytesToHex(k.key[..len(k.algorithm)]) + " " + ShowInt(k.algorithm)
  }

  /** The lines of the first `n` keys in rotation order. */
  function KeyLines(current: nat, keys: seq<DumpKey>, n: nat, len: KeyLength): Option<string>
    requires |keys| == MAX_SERVER_KEYS
  {
    if n == 0 then Some("")
    else
      var k, before := keys[Written(current, n - 1)], KeyLines(current, keys, n - 1, len);
      if before.Some? && Printable(k, len) then Some(before.value + (KeyLine(k, len) + "\n")) else None
  }

  /** Complete lines, one after the other. */
  function Block(lines: seq<string>): string {
    if lines == [] then "" else lines[0] + "\n" + Block(lines[1..])
  }

  function Header(age: string): string { Block([DUMP_IDENTIFIER, age]) }

  function Dump(current: nat, keys: seq<DumpKey>, age: string, len: KeyLength): Option<string>
    requires |keys| == MAX_SERVER_KEYS
  {
    match KeyLines(current, keys, MAX_SERVER_KEYS, len)
    case Some(t) => Some(Header(age) + t)
    case None => None
  }

  /** `format_keydump`; `age` is the key age as text. */
  method FormatKeydump(current: nat, keys: seq<DumpKey>, age: string, len: KeyLength) returns (out: Option<string>)
    requires |keys| == MAX_SERVER_KEYS
    ensures out == Dump(current, keys, age, len)
  {
    var text := Header(age);
    var n := |keys|;
    for i := 0 to n
      invariant KeyLines(current, keys, i, len).Some? && text == Header(age) + KeyLines(current, keys, i, len).value
    {
      var k := keys[Written(current, i)];
      if !Printable(k, len) {
        KeyLinesStop(current, keys, i + 1, n, len);
        return None;
      }
      Regroup(Header(age), KeyLines(current, keys, i, len).value, KeyLine(k, len) + "\n");
      text := text + (KeyLine(k, len) + "\n");
    }
    out := Some(text);
  }

  lemma {:induction false} KeyLinesStop(current: nat, keys: seq<DumpKey>, i: nat, n: nat, len: KeyLength)
    requires |keys| == MAX_SERVER_KEYS && i <= n && KeyLines(current, keys, i, len).None?
    ensures KeyLines(current, keys, n, len).None?
  {
    if i < n { KeyLinesStop(current, keys, i, n - 1, len); }
  }

  // ---- Reading.

  /** One key line; `algorithm` is that of the old format's age line. */
  function ParseKey(line: string, legacy: bool, algorithm: I32, len: KeyLength): Option<DumpKey> {
    var words := Words(line);
    if |words| != (if legacy then 2 else 3) then None
    else
      var id, alg := ParseId(words[0]), if legacy then Some(algorithm) else ParseInt(words[2]);
      if id.None? || alg.None? || len(alg.value) <= 0 then None
      else
        var key := HexToBytes(words[1]);
        if key.None? || |key.value| != len(alg.value) then None
        else Some(DumpKey(id.value, alg.value, key.value))
  }

  /** The ids count on, modulo four, across the wrap of 32 bits. */
  predicate Follows(a: U32, b: U32) { Slot(WrapSub32(b, a)) == 1 }

  /** The keys of the first `n` lines. */
  function ParseKeys(lines: seq<string>, n: nat, legacy: bool, algorithm: I32, len: KeyLength): (r: Option<seq<DumpKey>>)
    ensures r.Some? ==> |r.value| == n
  {
    if n == 0 then Some([])
    else if n > |lines| then None
    else
      var before, k := ParseKeys(lines, n - 1, legacy, algorithm, len), ParseKey(lines[n - 1], legacy, algorithm, len);
      if before.None? || k.None? || (n > 1 && !Follows(before.value[n - 2].id, k.value.id)) then None
      else Some(before.value + [k.value])
  }

  /** Each key in the slot of its id, later ones last. */
  function Placed(ks: seq<DumpKey>): (keys: seq<DumpKey>)
    ensures |keys| == MAX_SERVER_KEYS
  {
    if ks == [] then [NO_KEY, NO_KEY, NO_KEY, NO_KEY]
    else
      var k := ks[|ks| - 1];
      Placed(ks[..|ks| - 1])[Slot(k.id) := k]
  }

  /** The current key is the one before the last written. */
  function CurrentOf(ks: seq<DumpKey>): (c: nat)
    requires |ks| == MAX_SERVER_KEYS
    ensures c < MAX_SERVER_KEYS
  {
    Slot(Slot(ks[MAX_SERVER_KEYS - 1].id) + MAX_SERVER_KEYS - 1)
  }

  /** The second line: the age, after the algorithm in the old format. */
  function ParseAge<Age>(line: string, legacy: bool, readAge: string -> Option<Age>): Option<(I32, Age)> {
    var words := Words(line);
    if |words| != (if legacy then 2 else 1) then None
    else
      var alg, age := if legacy then ParseInt(words[0]) else Some(0), readAge(words[if legacy then 1 else 0]);
      if alg.Some? && age.Some? then Some((alg.value, age.value)) else None
  }

  function Parsed<Age>(text: string, len: KeyLength, readAge: string -> Option<Age>): Option<LoadedKeys<Age>> {
    var lines := Lines(text);
    if |lines| < 2 || (lines[0] != DUMP_IDENTIFIER && lines[0] != OLD_DUMP_IDENTIFIER) then None
    else
      var legacy := lines[0] != DUMP_IDENTIFIER;
      match ParseAge(lines[1], legacy, readAge)
      case None => None
      case Some(line) => Loaded(lines[2..], legacy, line.0, line.1, len)
  }

  function Loaded<Age>(lines: seq<string>, legacy: bool, algorithm: I32, age: Age, len: KeyLength): Option<LoadedKeys<Age>> {
    match ParseKeys(lines, MAX_SERVER_KEYS, legacy, algorithm, len)
    case None => None
    case Some(ks) => Some(LoadedKeys(Placed(ks), CurrentOf(ks), age))
  }

  /** `parse_keydump`. */
  method ParseKeydump<Age>(text: string, len: KeyLength, readAge: string -> Option<Age>) returns (r: Option<LoadedKeys<Age>>)
    ensures r == Parsed(text, len, readAge)
  {
    var lines := Lines(text);
    if |lines| == 0 || (lines[0] != DUMP_IDENTIFIER && lines[0] != OLD_DUMP_IDENTIFIER) || |lines| == 1 {
      return None;
    }
    var legacy := lines[0] != DUMP_IDENTIFIER;
    var age := ParseAge(lines[1], legacy, readAge);
    if age.None? {
      return None;
    }
    r := LoadKeys(lines[2..], legacy, age.value.0, age.value.1, len);
  }

  method LoadKeys<Age>(lines: seq<string>, legacy: bool, algorithm: I32, age: Age, len: KeyLength) returns (r: Option<LoadedKeys<Age>>)
    ensures r == Loaded(lines, legacy, algorithm, age, len)
  {
    var ks := CollectKeys(lines, MAX_SERVER_KEYS, legacy, algorithm, len);
    if ks.None? {
      return None;
    }
    var keys, last := PlaceKeys(ks.value);
    r := Some(LoadedKeys(keys, Slot(last + MAX_SERVER_KEYS - 1), age));
  }

  /** The loop over the key lines; too few lines are an error, too many are not. */
  method CollectKeys(lines: seq<string>, n: nat, legacy: bool, algorithm: I32, len: KeyLength) returns (r: Option<seq<DumpKey>>)
    ensures r == ParseKeys(lines, n, legacy, algorithm, len)
  {
    var ks: seq<DumpKey> := [];
    for i := 0 to n
      invariant i <= |lines| && ParseKeys(lines, i, legacy, algorithm, len) == Some(ks)
    {
      if i == |lines| {
        ParseKeysStop(lines, i + 1, n, legacy, algorithm, len);
        return None;
      }
      ParseKeysNext(lines, i, legacy, algorithm, len, ks);
      var k := ParseKey(lines[i], legacy, algorithm, len);
      if k.None? || (i > 0 && !Follows(ks[i - 1].id, k.value.id)) {
        ParseKeysStop(lines, i + 1, n, legacy, algorithm, len);
        return None;
      }
      ks := ks + [k.value];
    }
    r := Some(ks);
  }

  lemma ParseKeysNext(lines: seq<string>, i: nat, legacy: bool, algorithm: I32, len: KeyLength, ks: seq<DumpKey>)
    requires i < |lines| && ParseKeys(lines, i, legacy, algorithm, len) == Some(ks)
    ensures var k := ParseKey(lines[i], legacy, algorithm, len);
            ParseKeys(lines, i + 1, legacy, algorithm, len)
            == if k.None? || (i > 0 && !Follows(ks[i - 1].id, k.value.id)) then None else Some(ks + [k.value])
  {}

  lemma {:induction false} ParseKeysStop(lines: seq<string>, i: nat, n: nat, legacy: bool, algorithm: I32, len: KeyLength)
    requires i <= n && ParseKeys(lines, i, legacy, algorithm, len).None?
    ensures ParseKeys(lines, n, legacy, algorithm, len).None?
  {
    if i < n { ParseKeysStop(lines, i, n - 1, legacy, algorithm, len); }
  }

  /** The loop that files each key under its id. */
  method PlaceKeys(ks: seq<DumpKey>) returns (keys: seq<DumpKey>, last: nat)
    ensures keys == Placed(ks)
    ensures ks != [] ==> last == Slot(ks[|ks| - 1].id)
  {
    keys, last := [NO_KEY, NO_KEY, NO_KEY, NO_KEY], 0;
    for i := 0 to |ks|
      invariant keys == Placed(ks[..i])
      invariant i > 0 ==> last == Slot(ks[i - 1].id)
    {
      assert ks[..i + 1][..i] == ks[..i];
      last := Slot(ks[i].id);
      keys := keys[last := ks[i]];
    }
    assert ks[..|ks|] == ks;
  }

  // ---- What a successful reading means.

  /** 2^32 is a multiple of four, so the wrapping difference counts slots. */
  lemma FollowsSlot(a: U32, b: U32)
    ensures Follows(a, b) <==> Slot(b) == Slot(a + 1)
  {}

  /** Each key's id follows on the one before, and its length is that of its algorithm. */
  ghost predicate Linked(ks: seq<DumpKey>, len: KeyLength) {
    && (forall i | 0 < i < |ks| :: Follows(ks[i - 1].id, ks[i].id))
    && (forall i | 0 <= i < |ks| :: |ks[i].key| == len(ks[i].algorithm) > 0)
  }

  lemma LinkedStep(ks: seq<DumpKey>, k: DumpKey, len: KeyLength)
    requires Linked(ks, len) && |k.key| == len(k.algorithm) > 0
    requires ks != [] ==> Follows(ks[|ks| - 1].id, k.id)
    ensures Linked(ks + [k], len)
  {}

  lemma ParsedKeyOk(line: string, legacy: bool, algorithm: I32, len: KeyLength)
    requires ParseKey(line, legacy, algorithm, len).Some?
    ensures var k := ParseKey(line, legacy, algorithm, len).value; |k.key| == len(k.algorithm) > 0
  {}

  lemma {:induction false} ParsedLinked(lines: seq<string>, n: nat, legacy: bool, algorithm: I32, len: KeyLength)
    requires ParseKeys(lines, n, legacy, algorithm, len).Some?
    ensures Linked(ParseKeys(lines, n, legacy, algorithm, len).value, len)
  {
    if n > 0 {
      ParsedLinked(lines, n - 1, legacy, algorithm, len);
      ParsedKeyOk(lines[n - 1], legacy, algorithm, len);
      LinkedStep(ParseKeys(lines, n - 1, legacy, algorithm, len).value, ParseKey(lines[n - 1], legacy, algorithm, len).value, len);
    }
  }

  lemma {:induction false} LinkedCount(ks: seq<DumpKey>, len: KeyLength, i: nat)
    requires Linked(ks, len) && i < |ks|
    ensures Slot(ks[i].id) == Slot(ks[0].id + i)
  {
    if i > 0 {
      LinkedCount(ks, len, i - 1);
      FollowsSlot(ks[i - 1].id, ks[i].id);
      SlotAdd(ks[i - 1].id, 1);
      SlotAdd(ks[0].id + (i - 1), 1);
    }
  }

  lemma SlotDistinct(a: nat, i: nat, j: nat)
    requires i < j < i + MAX_SERVER_KEYS
    ensures Slot(a + i) != Slot(a + j)
  {
    SlotAdd(a + i, j - i);
  }

  lemma {:induction false} PlacedLast(ks: seq<DumpKey>, i: nat)
    requires i < |ks| && forall j | i < j < |ks| :: Slot(ks[j].id) != Slot(ks[i].id)
    ensures Placed(ks)[Slot(ks[i].id)] == ks[i]
  {
    if i < |ks| - 1 { PlacedLast(ks[..|ks| - 1], i); }
  }

  /** Four linked keys fill the four slots, each exactly once. */
  lemma PlacedOnce(ks: seq<DumpKey>, len: KeyLength, i: nat)
    requires Linked(ks, len) && |ks| == MAX_SERVER_KEYS && i < MAX_SERVER_KEYS
    ensures Slot(ks[i].id) == Slot(ks[0].id + i) && Placed(ks)[Slot(ks[i].id)] == ks[i]
  {
    LinkedCount(ks, len, i);
    forall j | i < j < |ks| ensures Slot(ks[j].id) != Slot(ks[i].id) {
      LinkedCount(ks, len, j);
      SlotDistinct(ks[0].id, i, j);
    }
    PlacedLast(ks, i);
  }

  /** The line that fills slot `j`. */
  function LineFor(first: nat, j: nat): (i: nat)
    requires j < MAX_SERVER_KEYS
    ensures i < MAX_SERVER_KEYS && Slot(first + i) == j
  {
    var s := Slot(first);
    var i := if s <= j then j - s else j + MAX_SERVER_KEYS - s;
    SlotAdd(first, i);
    i
  }

  predicate RingSlotOk(k: DumpKey, j: nat, len: KeyLength) {
    Slot(k.id) == j && 0 < len(k.algorithm) == |k.key|
  }

  /** Slot `j` holds an id congruent to `j`, and a key of its algorithm's length. */
  predicate RingOk(keys: seq<DumpKey>, len: KeyLength) {
    |keys| == MAX_SERVER_KEYS && forall j: nat | j < MAX_SERVER_KEYS :: RingSlotOk(keys[j], j, len)
  }

  /** Whatever text parses, in either format: the loaded ring is well formed. */
  lemma ParsedRing<Age>(text: string, len: KeyLength, readAge: string -> Option<Age>)
    requires Parsed(text, len, readAge).Some?
    ensures var loaded := Parsed(text, len, readAge).value; RingOk(loaded.keys, len) && loaded.current < MAX_SERVER_KEYS
  {
    var lines := Lines(text);
    var legacy := lines[0] != DUMP_IDENTIFIER;
    var algorithm := ParseAge(lines[1], legacy, readAge).value.0;
    ParsedLinked(lines[2..], MAX_SERVER_KEYS, legacy, algorithm, len);
    PlacedRing(ParseKeys(lines[2..], MAX_SERVER_KEYS, legacy, algorithm, len).value, len);
  }

  lemma PlacedRing(ks: seq<DumpKey>, len: KeyLength)
    requires Linked(ks, len) && |ks| == MAX_SERVER_KEYS
    ensures RingOk(Placed(ks), len)
  {
    forall j: nat | j < MAX_SERVER_KEYS ensures RingSlotOk(Placed(ks)[j], j, len) {
      PlacedOnce(ks, len, LineFor(ks[0].id, j));
    }
  }

  // ---- Which texts are read.

  /** A format: the old one, with the algorithm of all keys, or the new one. */
  datatype Format = Format(legacy: bool, algorithm: I32)

  const NEW_FORMAT: Format := Format(false, 0)

  predicate SaysKey(line: string, f: Format, k: DumpKey) {
    var w := Words(line);
    && |w| == (if f.legacy then 2 else 3)
    && ParseId(w[0]) == Some(k.id) && HexToBytes(w[1]) == Some(k.key)
    && if f.legacy then k.algorithm == f.algorithm else ParseInt(w[2]) == Some(k.algorithm)
  }

  /** The second line holds the age, and in the old format the algorithm before it. */
  predicate SaysAge<Age(==)>(line: string, f: Format, readAge: string -> Option<Age>, age: Age) {
    var w := Words(line);
    if f.legacy then |w| == 2 && ParseInt(w[0]) == Some(f.algorithm) && readAge(w[1]) == Some(age)
    else |w| == 1 && f.algorithm == 0 && readAge(w[0]) == Some(age)
  }

  /** What makes a text a dump of the keys `ks`, oldest first: identifier, age, then a line for each key. */
  ghost predicate IsDump<Age>(lines: seq<string>, f: Format, age: Age, ks: seq<DumpKey>, len: KeyLength, readAge: string -> Option<Age>) {
    && |lines| >= 2 + MAX_SERVER_KEYS && |ks| == MAX_SERVER_KEYS
    && lines[0] == (if f.legacy then OLD_DUMP_IDENTIFIER else DUMP_IDENTIFIER)
    && SaysAge(lines[1], f, readAge, age)
    && Linked(ks, len) && AllSaid(lines[2..], f, ks)
  }

  lemma KeyIsSaid(line: string, f: Format, len: KeyLength, k: DumpKey)
    ensures ParseKey(line, f.legacy, f.algorithm, len) == Some(k) <==> SaysKey(line, f, k) && |k.key| == len(k.algorithm) > 0
  {}

  predicate AllSaid(lines: seq<string>, f: Format, ks: seq<DumpKey>) {
    |ks| <= |lines| && forall i | 0 <= i < |ks| :: SaysKey(lines[i], f, ks[i])
  }

  lemma LinkedAdded(len: KeyLength, before: seq<DumpKey>, k: DumpKey, ks: seq<DumpKey>)
    requires ks == before + [k]
    ensures Linked(ks, len) <==> Linked(before, len) && |k.key| == len(k.algorithm) > 0 && (before != [] ==> Follows(before[|before| - 1].id, k.id))
  {
    if Linked(ks, len) {
      assert ks[|before|] == k;
      assert forall i | 0 <= i < |before| :: before[i] == ks[i];
    }
  }

  lemma SaidAdded(lines: seq<string>, f: Format, before: seq<DumpKey>, k: DumpKey, ks: seq<DumpKey>)
    requires ks == before + [k]
    ensures AllSaid(lines, f, ks) <==> AllSaid(lines, f, before) && |before| < |lines| && SaysKey(lines[|before|], f, k)
  {}

  lemma KeyParsed(lines: seq<string>, f: Format, len: KeyLength, before: seq<DumpKey>, k: DumpKey, ks: seq<DumpKey>)
    requires ks == before + [k]
    ensures ParseKeys(lines, |ks|, f.legacy, f.algorithm, len) == Some(ks)
            <==> && ParseKeys(lines, |before|, f.legacy, f.algorithm, len) == Some(before)
                 && |before| < |lines| && ParseKey(lines[|before|], f.legacy, f.algorithm, len) == Some(k)
                 && (before != [] ==> Follows(before[|before| - 1].id, k.id))
  {
    var r := ParseKeys(lines, |before|, f.legacy, f.algorithm, len);
    if r.Some? && |before| < |lines| {
      ParseKeysNext(lines, |before|, f.legacy, f.algorithm, len, r.value);
      var l := ParseKey(lines[|before|], f.legacy, f.algorithm, len);
      if l.Some? && r.value + [l.value] == ks { assert (r.value + [l.value])[..|before|] == r.value; }
    }
  }

  lemma {:induction false} KeysAreSaid(lines: seq<string>, f: Format, len: KeyLength, ks: seq<DumpKey>)
    ensures ParseKeys(lines, |ks|, f.legacy, f.algorithm, len) == Some(ks) <==> Linked(ks, len) && AllSaid(lines, f, ks)
  {
    if ks != [] {
      var before, k := ks[..|ks| - 1], ks[|ks| - 1];
      KeysAreSaid(lines, f, len, before);
      LinkedAdded(len, before, k, ks);
      SaidAdded(lines, f, before, k, ks);
      KeyParsed(lines, f, len, before, k, ks);
      if |before| < |lines| { KeyIsSaid(lines[|before|], f, len, k); }
    }
  }

  lemma CurrentIsThird(ks: seq<DumpKey>, len: KeyLength)
    requires Linked(ks, len) && |ks| == MAX_SERVER_KEYS
    ensures CurrentOf(ks) == Slot(ks[2].id)
  {
    LinkedCount(ks, len, 2);
    LinkedCount(ks, len, 3);
    SlotAdd(ks[0].id + 3, MAX_SERVER_KEYS - 1);
  }

  /** Every dump is read, each key into the slot of its id; the last but one is current. */
  lemma DumpIsRead<Age>(text: string, f: Format, age: Age, ks: seq<DumpKey>, len: KeyLength, readAge: string -> Option<Age>)
    requires IsDump(Lines(text), f, age, ks, len, readAge)
    ensures Parsed(text, len, readAge).Some?
    ensures var l := Parsed(text, len, readAge).value;
            l.age == age && l.current == Slot(ks[2].id) && |l.keys| == MAX_SERVER_KEYS && forall i | 0 <= i < |ks| :: l.keys[Slot(ks[i].id)] == ks[i]
  {
    KeysAreSaid(Lines(text)[2..], f, len, ks);
    forall i | 0 <= i < |ks| ensures Placed(ks)[Slot(ks[i].id)] == ks[i] { PlacedOnce(ks, len, i); }
    CurrentIsThird(ks, len);
    assert ParseAge(Lines(text)[1], f.legacy, readAge) == Some((f.algorithm, age));
  }

  /** And nothing else is: malformed fields, wrong word counts, gaps in the ids and wrong key lengths are refused. */
  lemma ReadIsDump<Age>(text: string, len: KeyLength, readAge: string -> Option<Age>) returns (f: Format, ks: seq<DumpKey>)
    requires Parsed(text, len, readAge).Some?
    ensures IsDump(Lines(text), f, Parsed(text, len, readAge).value.age, ks, len, readAge)
  {
    var lines := Lines(text);
    var legacy := lines[0] != DUMP_IDENTIFIER;
    f := Format(legacy, ParseAge(lines[1], legacy, readAge).value.0);
    ks := ParseKeys(lines[2..], MAX_SERVER_KEYS, legacy, f.algorithm, len).value;
    KeysAreSaid(lines[2..], f, len, ks);
  }

  // ---- Writing and reading back.

  lemma {:induction false} BlockAppend(a: seq<string>, b: seq<string>)
    ensures Block(a + b) == Block(a) + Block(b)
  {
    if a == [] {
      assert a + b == b;
    } else {
      BlockAppend(a[1..], b);
      assert (a + b)[1..] == a[1..] + b;
      Regroup(a[0] + "\n", Block(a[1..]), Block(b));
    }
  }

  lemma {:induction false} BlockLines(lines: seq<string>)
    requires forall l <- lines :: Line(l)
    ensures Lines(Block(lines)) == lines
  {
    if lines != [] {
      BlockLines(lines[1..]);
      LinesStep(lines[0], Block(lines[1..]));
    }
  }

  lemma WordIsLine(w: string)
    requires Word(w)
    ensures Line(w)
  {}

  /** The line of a well-formed key reads back as that key. */
  lemma KeyRoundTrip(k: DumpKey, j: nat, len: KeyLength)
    requires RingSlotOk(k, j, len) && len(k.algorithm) <= SIV_MAX_KEY_LENGTH
    ensures Printable(k, len)
    ensures ParseKey(KeyLine(k, len), false, 0, len) == Some(k) && Line(KeyLine(k, len))
  {
    var id, hex, alg := ShowId(k.id), BytesToHex(k.key), ShowInt(k.algorithm);
    assert k.key[..len(k.algorithm)] == k.key;
    IdRoundTrip(k.id);
    HexRoundTrip(k.key);
    IntRoundTrip(k.algorithm);
    ThreeWords(id, hex, alg);
  }

  /** The line of a key in the old format, which names the algorithm only once, above. */
  function OldKeyLine(k: DumpKey): string { ShowId(k.id) + " " + BytesToHex(k.key) }

  lemma OldKeyRoundTrip(k: DumpKey, j: nat, len: KeyLength)
    requires RingSlotOk(k, j, len)
    ensures ParseKey(OldKeyLine(k), true, k.algorithm, len) == Some(k) && Line(OldKeyLine(k))
  {
    IdRoundTrip(k.id);
    HexRoundTrip(k.key);
    TwoWords(ShowId(k.id), BytesToHex(k.key));
  }

  lemma TwoWords(a: string, b: string)
    requires Word(a) && Word(b)
    ensures Words(a + " " + b) == [a, b] && Line(a + " " + b)
  {
    WordsStep(a, b);
    WordsOfWord(b);
    forall ch | ch in a + " " + b ensures ch != '\n' && ch != '\r' { assert ch in a || ch == ' ' || ch in b; }
  }

  lemma ThreeWords(a: string, b: string, c: string)
    requires Word(a) && Word(b) && Word(c)
    ensures Words(a + " " + b + " " + c) == [a, b, c] && Line(a + " " + b + " " + c)
  {
    var s := b + " " + c;
    assert a + " " + b + " " + c == a + " " + s;
    WordsStep(a, s);
    WordsStep(b, c);
    WordsOfWord(c);
    forall ch | ch in a + " " + s ensures ch != '\n' && ch != '\r' { assert ch in a || ch == ' ' || ch in b || ch in c; }
  }

  /** What a ring must satisfy to come back from its dump. */
  predicate Dumpable(keys: seq<DumpKey>, current: nat, len: KeyLength) {
    && RingOk(keys, len) && current < MAX_SERVER_KEYS
    && forall j: nat | j < MAX_SERVER_KEYS :: len(keys[j].algorithm) <= SIV_MAX_KEY_LENGTH
  }

  /** The first `n` keys in rotation order. */
  function Rotation(keys: seq<DumpKey>, current: nat, n: nat): (ks: seq<DumpKey>)
    requires |keys| == MAX_SERVER_KEYS
    ensures |ks| == n
  {
    if n == 0 then [] else Rotation(keys, current, n - 1) + [keys[Written(current, n - 1)]]
  }

  lemma {:induction false} RotationAt(keys: seq<DumpKey>, current: nat, n: nat, i: nat)
    requires |keys| == MAX_SERVER_KEYS && i < n
    ensures Rotation(keys, current, n)[i] == keys[Written(current, i)]
  {
    if i < n - 1 { RotationAt(keys, current, n - 1, i); }
  }

  /** The old format has one algorithm for all keys. */
  predicate Suits(f: Format, keys: seq<DumpKey>) { f.legacy ==> forall k <- keys :: k.algorithm == f.algorithm }

  function LineOf(k: DumpKey, f: Format, len: KeyLength): string
    requires Printable(k, len)
  {
    if f.legacy then OldKeyLine(k) else KeyLine(k, len)
  }

  lemma LineRoundTrip(k: DumpKey, j: nat, f: Format, len: KeyLength)
    requires RingSlotOk(k, j, len) && len(k.algorithm) <= SIV_MAX_KEY_LENGTH && (if f.legacy then k.algorithm == f.algorithm else f.algorithm == 0)
    ensures Printable(k, len) && ParseKey(LineOf(k, f, len), f.legacy, f.algorithm, len) == Some(k) && Line(LineOf(k, f, len))
  {
    if f.legacy { OldKeyRoundTrip(k, j, len); } else { KeyRoundTrip(k, j, len); }
  }

  /** The lines written for the first `n` keys. */
  function RingLines(keys: seq<DumpKey>, current: nat, f: Format, len: KeyLength, n: nat): (r: seq<string>)
    requires Dumpable(keys, current, len)
    ensures |r| == n
  {
    if n == 0 then []
    else
      var k := keys[Written(current, n - 1)];
      assert RingSlotOk(k, Written(current, n - 1), len);
      RingLines(keys, current, f, len, n - 1) + [LineOf(k, f, len)]
  }

  lemma {:induction false} RingText(keys: seq<DumpKey>, current: nat, len: KeyLength, n: nat)
    requires Dumpable(keys, current, len)
    ensures KeyLines(current, keys, n, len) == Some(Block(RingLines(keys, current, NEW_FORMAT, len, n)))
  {
    if n > 0 {
      RingText(keys, current, len, n - 1);
      var k := keys[Written(current, n - 1)];
      assert RingSlotOk(k, Written(current, n - 1), len);
      BlockAppend(RingLines(keys, current, NEW_FORMAT, len, n - 1), [KeyLine(k, len)]);
      assert Block([KeyLine(k, len)]) == KeyLine(k, len) + "\n";
    }
  }

  lemma {:induction false} RingLinesOk(keys: seq<DumpKey>, current: nat, f: Format, len: KeyLength, n: nat)
    requires Dumpable(keys, current, len) && Suits(f, keys) && (f.legacy || f.algorithm == 0)
    ensures forall l <- RingLines(keys, current, f, len, n) :: Line(l)
  {
    if n > 0 {
      RingLinesOk(keys, current, f, len, n - 1);
      LineRoundTrip(keys[Written(current, n - 1)], Written(current, n - 1), f, len);
    }
  }

  lemma WrittenFollows(keys: seq<DumpKey>, current: nat, len: KeyLength, i: nat)
    requires RingOk(keys, len)
    ensures Follows(keys[Written(current, i)].id, keys[Written(current, i + 1)].id)
  {
    var a, b := keys[Written(current, i)], keys[Written(current, i + 1)];
    assert RingSlotOk(a, Written(current, i), len) && RingSlotOk(b, Written(current, i + 1), len);
    FollowsSlot(a.id, b.id);
    SlotAdd(a.id, 1);
    SlotAdd(current + i + 2, 1);
  }

  /** Reading the written lines yields the same keys in the same order. */
  lemma {:induction false} RingParse(keys: seq<DumpKey>, current: nat, f: Format, len: KeyLength, n: nat)
    requires Dumpable(keys, current, len) && Suits(f, keys) && (f.legacy || f.algorithm == 0)
    ensures ParseKeys(RingLines(keys, current, f, len, n), n, f.legacy, f.algorithm, len) == Some(Rotation(keys, current, n))
  {
    if n > 0 {
      var before, j := RingLines(keys, current, f, len, n - 1), Written(current, n - 1);
      RingParse(keys, current, f, len, n - 1);
      LineRoundTrip(keys[j], j, f, len);
      if n > 1 {
        RotationAt(keys, current, n - 1, n - 2);
        WrittenFollows(keys, current, len, n - 2);
      }
      ParseKeysStep(before, LineOf(keys[j], f, len), Rotation(keys, current, n - 1), keys[j], f, len);
    }
  }

  lemma ParseKeysStep(before: seq<string>, line: string, ks: seq<DumpKey>, k: DumpKey, f: Format, len: KeyLength)
    requires ParseKeys(before, |before|, f.legacy, f.algorithm, len) == Some(ks)
    requires ParseKey(line, f.legacy, f.algorithm, len) == Some(k) && (ks != [] ==> Follows(ks[|ks| - 1].id, k.id))
    ensures ParseKeys(before + [line], |before| + 1, f.legacy, f.algorithm, len) == Some(ks + [k])
  {
    ParseKeysPrefix(before, [line], |before|, f, len);
  }

  lemma {:induction false} ParseKeysPrefix(lines: seq<string>, more: seq<string>, n: nat, f: Format, len: KeyLength)
    requires n <= |lines|
    ensures ParseKeys(lines + more, n, f.legacy, f.algorithm, len) == ParseKeys(lines, n, f.legacy, f.algorithm, len)
  {
    if n > 0 { ParseKeysPrefix(lines, more, n - 1, f, len); }
  }

  /** The key written on the line for slot `j` is the one of that slot. */
  lemma RotationSlot(keys: seq<DumpKey>, current: nat, len: KeyLength, j: nat)
    requires RingOk(keys, len) && j < MAX_SERVER_KEYS
    requires Linked(Rotation(keys, current, MAX_SERVER_KEYS), len)
    ensures Placed(Rotation(keys, current, MAX_SERVER_KEYS))[j] == keys[j]
  {
    var ks, i := Rotation(keys, current, MAX_SERVER_KEYS), LineFor(current + 2, j);
    assert Written(current, i) == j by { assert current + i + 2 == current + 2 + i; }
    RotationAt(keys, current, MAX_SERVER_KEYS, i);
    assert RingSlotOk(keys[j], j, len);
    PlacedOnce(ks, len, i);
  }

  lemma RotationCurrent(keys: seq<DumpKey>, current: nat, len: KeyLength)
    requires RingOk(keys, len) && current < MAX_SERVER_KEYS
    ensures CurrentOf(Rotation(keys, current, MAX_SERVER_KEYS)) == current
  {
    var last := Written(current, 3);
    RotationAt(keys, current, MAX_SERVER_KEYS, 3);
    assert RingSlotOk(keys[last], last, len);
    TurnedBack(current);
  }

  lemma TurnedBack(current: nat)
    requires current < MAX_SERVER_KEYS
    ensures Slot(Slot(current + 5) + MAX_SERVER_KEYS - 1) == current
  {}

  /** The keys in rotation order go back where they were, and so does the current one. */
  lemma RotationPlaced(keys: seq<DumpKey>, current: nat, len: KeyLength)
    requires RingOk(keys, len) && current < MAX_SERVER_KEYS
    requires Linked(Rotation(keys, current, MAX_SERVER_KEYS), len)
    ensures var ks := Rotation(keys, current, MAX_SERVER_KEYS); Placed(ks) == keys && CurrentOf(ks) == current
  {
    forall j: nat | j < MAX_SERVER_KEYS ensures Placed(Rotation(keys, current, MAX_SERVER_KEYS))[j] == keys[j] {
      RotationSlot(keys, current, len, j);
    }
    RotationCurrent(keys, current, len);
  }

  lemma WholeText(keys: seq<DumpKey>, current: nat, age: string, len: KeyLength)
    requires Dumpable(keys, current, len) && Word(age)
    ensures Dump(current, keys, age, len).Some?
    ensures Lines(Dump(current, keys, age, len).value)
            == [DUMP_IDENTIFIER, age] + RingLines(keys, current, NEW_FORMAT, len, MAX_SERVER_KEYS)
  {
    var lines := RingLines(keys, current, NEW_FORMAT, len, MAX_SERVER_KEYS);
    RingText(keys, current, len, MAX_SERVER_KEYS);
    RingLinesOk(keys, current, NEW_FORMAT, len, MAX_SERVER_KEYS);
    HeaderLines(age, lines);
  }

  lemma HeaderLines(age: string, lines: seq<string>)
    requires Word(age) && forall l <- lines :: Line(l)
    ensures Lines(Header(age) + Block(lines)) == [DUMP_IDENTIFIER, age] + lines
  {
    var head := [DUMP_IDENTIFIER, age];
    BlockAppend(head, lines);
    WordIsLine(age);
    forall l | l in head + lines ensures Line(l) { assert l == DUMP_IDENTIFIER || l == age || l in lines; }
    BlockLines(head + lines);
  }

  lemma ParsedNew<Age>(text: string, age: string, ring: seq<string>, len: KeyLength, readAge: string -> Option<Age>)
    requires Lines(text) == [DUMP_IDENTIFIER, age] + ring && Word(age) && readAge(age).Some?
    ensures Parsed(text, len, readAge) == Loaded(ring, false, 0, readAge(age).value, len)
  {
    assert Lines(text)[2..] == ring;
    WordsOfWord(age);
  }

  lemma DumpComesBack<Age>(keys: seq<DumpKey>, current: nat, age: string, len: KeyLength, readAge: string -> Option<Age>)
    requires Dumpable(keys, current, len) && Word(age) && readAge(age).Some?
    ensures Dump(current, keys, age, len).Some?
    ensures Parsed(Dump(current, keys, age, len).value, len, readAge) == Some(LoadedKeys(keys, current, readAge(age).value))
  {
    var ring := RingLines(keys, current, NEW_FORMAT, len, MAX_SERVER_KEYS);
    WholeText(keys, current, age, len);
    ParsedNew(Dump(current, keys, age, len).value, age, ring, len, readAge);
    RingParse(keys, current, NEW_FORMAT, len, MAX_SERVER_KEYS);
    ParsedLinked(ring, MAX_SERVER_KEYS, false, 0, len);
    RotationPlaced(keys, current, len);
  }

  /** A dump as older servers wrote it: the algorithm of all keys stands before the age. */
  function OldDump(current: nat, keys: seq<DumpKey>, algorithm: I32, age: string, len: KeyLength): string
    requires Dumpable(keys, current, len)
  {
    Block([OLD_DUMP_IDENTIFIER, ShowInt(algorithm) + " " + age] + RingLines(keys, current, Format(true, algorithm), len, MAX_SERVER_KEYS))
  }

  /** Such a dump is still read back to the same ring. */
  lemma OldDumpComesBack<Age>(keys: seq<DumpKey>, current: nat, algorithm: I32, age: string, len: KeyLength, readAge: string -> Option<Age>)
    requires Dumpable(keys, current, len) && Word(age) && readAge(age).Some? && forall k <- keys :: k.algorithm == algorithm
    ensures Parsed(OldDump(current, keys, algorithm, age, len), len, readAge) == Some(LoadedKeys(keys, current, readAge(age).value))
  {
    var f := Format(true, algorithm);
    var ring := RingLines(keys, current, f, len, MAX_SERVER_KEYS);
    OldLines(ring, algorithm, age, keys, current, len);
    ParsedOld(OldDump(current, keys, algorithm, age, len), algorithm, age, ring, len, readAge);
    RingParse(keys, current, f, len, MAX_SERVER_KEYS);
    ParsedLinked(ring, MAX_SERVER_KEYS, true, algorithm, len);
    RotationPlaced(keys, current, len);
  }

  lemma OldLines(ring: seq<string>, algorithm: I32, age: string, keys: seq<DumpKey>, current: nat, len: KeyLength)
    requires Dumpable(keys, current, len) && Word(age) && forall k <- keys :: k.algorithm == algorithm
    requires ring == RingLines(keys, current, Format(true, algorithm), len, MAX_SERVER_KEYS)
    ensures Lines(OldDump(current, keys, algorithm, age, len)) == [OLD_DUMP_IDENTIFIER, ShowInt(algorithm) + " " + age] + ring
  {
    var head := [OLD_DUMP_IDENTIFIER, ShowInt(algorithm) + " " + age];
    RingLinesOk(keys, current, Format(true, algorithm), len, MAX_SERVER_KEYS);
    IntRoundTrip(algorithm);
    TwoWords(ShowInt(algorithm), age);
    forall l | l in head + ring ensures Line(l) { assert l == head[0] || l == head[1] || l in ring; }
    BlockLines(head + ring);
  }

  lemma ParsedOld<Age>(text: string, algorithm: I32, age: string, ring: seq<string>, len: KeyLength, readAge: string -> Option<Age>)
    requires Lines(text) == [OLD_DUMP_IDENTIFIER, ShowInt(algorithm) + " " + age] + ring && Word(age) && readAge(age).Some?
    ensures Parsed(text, len, readAge) == Loaded(ring, true, algorithm, readAge(age).value, len)
  {
    assert Lines(text)[2..] == ring;
    IntRoundTrip(algorithm);
    TwoWords(ShowInt(algorithm), age);
  }

  lemma {:induction false} WrittenPrintable(current: nat, keys: seq<DumpKey>, n: nat, len: KeyLength, i: nat)
    requires |keys| == MAX_SERVER_KEYS && KeyLines(current, keys, n, len).Some? && i < n
    ensures Printable(keys[Written(current, i)], len)
  {
    if i < n - 1 { WrittenPrintable(current, keys, n - 1, len, i); }
  }

  /**
    Dumping and reloading gives back exactly the same ring and current key if and only if the
    ring is well formed: slot `j` holds an id congruent to `j`, every key has its algorithm's
    length, between 1 and 32, and the current index is a slot.
   */
  lemma RoundTripExactly<Age>(keys: seq<DumpKey>, current: nat, age: string, len: KeyLength, readAge: string -> Option<Age>)
    requires |keys| == MAX_SERVER_KEYS && Word(age) && readAge(age).Some?
    ensures Dumpable(keys, current, len) <==>
            match Dump(current, keys, age, len)
            case None => false
            case Some(text) => Parsed(text, len, readAge) == Some(LoadedKeys(keys, current, readAge(age).value))
  {
    if Dumpable(keys, current, len) {
      DumpComesBack(keys, current, age, len, readAge);
    } else if Dump(current, keys, age, len).Some? {
      var text := Dump(current, keys, age, len).value;
      if Parsed(text, len, readAge).Some? {
        ParsedRing(text, len, readAge);
        forall j: nat | j < MAX_SERVER_KEYS ensures len(keys[j].algorithm) <= SIV_MAX_KEY_LENGTH {
          WrittenPrintable(current, keys, MAX_SERVER_KEYS, len, LineFor(current + 2, j));
        }
      }
    }
  }
}
