/** The byte string that a package's content digest hashes: for every entry in name
    order, length-prefixed name and length-prefixed content. */
module ContentDigest {
  import opened Wrappers
  import opened Bytes
  import opened Utf8Order

  datatype Entry = Entry(name: string, content: seq<Byte>)

  datatype Fault = LengthOverflow

  const LENGTH_BYTES: nat := 8

  // ---- The hashed bytes --------------------------------------------------

  /** `len(x).to_bytes(8, "big")` followed by the bytes themselves. */
  function Prefixed(bytes: seq<Byte>): (r: Result<seq<Byte>, Fault>)
    ensures r.Ok? <==> |bytes| < Pow256(LENGTH_BYTES)
  {
    if |bytes| < Pow256(LENGTH_BYTES) then Ok(BigEndian(|bytes|, LENGTH_BYTES) + bytes) else Err(LengthOverflow)
  }

  function Both(a: Result<seq<Byte>, Fault>, b: Result<seq<Byte>, Fault>): Result<seq<Byte>, Fault> {
    if a.Err? then a else if b.Err? then b else Ok(a.value + b.value)
  }

  function EntryBytes(e: Entry): Result<seq<Byte>, Fault> {
    Both(Prefixed(Encode(e.name)), Prefixed(e.content))
  }

  function StreamBytes(entries: seq<Entry>): Result<seq<Byte>, Fault> {
    if entries == [] then Ok([])
    else Both(StreamBytes(entries[..|entries| - 1]), EntryBytes(entries[|entries| - 1]))
  }

  // ---- Sorting -----------------------------------------------------------

  function Inserted(sorted: seq<Entry>, e: Entry, less: (string, string) -> bool): seq<Entry> {
    if sorted == [] || less(e.name, sorted[0].name) then [e] + sorted
    else [sorted[0]] + Inserted(sorted[1..], e, less)
  }

  /** The entries in the order of `less`; stable, as Python's `sorted` is. */
  function SortedBy(entries: seq<Entry>, less: (string, string) -> bool): seq<Entry> {
    if entries == [] then [] else Inserted(SortedBy(entries[..|entries| - 1], less), entries[|entries| - 1], less)
  }

  function ByCodePoint(): (string, string) -> bool {
    (a, b) => NameLess(a, b)
  }

  function ByBytes(): (string, string) -> bool {
    (a, b) => BytesLess(Encode(a), Encode(b))
  }

  /** The bytes that are hashed for a package. */
  function PackageBytes(entries: seq<Entry>): Result<seq<Byte>, Fault> {
    StreamBytes(SortedBy(entries, ByCodePoint()))
  }

  /** `_package_content_digest`, over the sorted entries and for any hash. */
  method ContentDigest(entries: seq<Entry>, hash: seq<Byte> -> string) returns (digest: Result<string, Fault>)
    ensures digest == if PackageBytes(entries).Ok? then Ok("sha256:" + hash(PackageBytes(entries).value))
                      else Err(LengthOverflow)
  {
    var sorted := SortedBy(entries, ByCodePoint());
    var fed: seq<Byte> := [];
    for i := 0 to |sorted|
      invariant StreamBytes(sorted[..i]) == Ok(fed)
    {
      NextEntry(sorted, i);
      var name, content := Encode(sorted[i].name), sorted[i].content;
      if |name| >= Pow256(LENGTH_BYTES) || |content| >= Pow256(LENGTH_BYTES) {
        FaultStays(sorted, i + 1);
        return Err(LengthOverflow);
      }
      fed := fed + (BigEndian(|name|, LENGTH_BYTES) + name + (BigEndian(|content|, LENGTH_BYTES) + content));
    }
    assert sorted[..|sorted|] == sorted;
    digest := Ok("sha256:" + hash(fed));
  }

  lemma {:induction false} NextEntry(entries: seq<Entry>, i: nat)
    requires i < |entries|
    ensures StreamBytes(entries[..i + 1]) == Both(StreamBytes(entries[..i]), EntryBytes(entries[i]))
  {
    assert entries[..i + 1][..i] == entries[..i];
  }

  lemma {:induction false} FaultStays(entries: seq<Entry>, i: nat)
    requires i <= |entries| && StreamBytes(entries[..i]).Err?
    ensures StreamBytes(entries).Err?
    decreases |entries|
  {
    if i == |entries| {
      assert entries[..i] == entries;
    } else {
      assert entries[..|entries| - 1][..i] == entries[..i];
      FaultStays(entries[..|entries| - 1], i);
    }
  }

  // ---- The bytes determine the entries -----------------------------------

  lemma {:induction false} PrefixedIsDecodable(a: seq<Byte>, b: seq<Byte>, x: seq<Byte>, y: seq<Byte>)
    requires Prefixed(a).Ok? && Prefixed(b).Ok? && Prefixed(a).value + x == Prefixed(b).value + y
    ensures a == b && x == y
  {
    var left, right := Prefixed(a).value + x, Prefixed(b).value + y;
    assert left[..LENGTH_BYTES] == BigEndian(|a|, LENGTH_BYTES);
    assert right[..LENGTH_BYTES] == BigEndian(|b|, LENGTH_BYTES);
    BigEndianRoundTrip(|a|, LENGTH_BYTES);
    BigEndianRoundTrip(|b|, LENGTH_BYTES);
    assert a == left[LENGTH_BYTES..LENGTH_BYTES + |a|] && b == right[LENGTH_BYTES..LENGTH_BYTES + |b|];
    assert x == left[LENGTH_BYTES + |a|..] && y == right[LENGTH_BYTES + |b|..];
  }

  lemma {:induction false} EntryIsDecodable(a: Entry, b: Entry, x: seq<Byte>, y: seq<Byte>)
    requires EntryBytes(a).Ok? && EntryBytes(b).Ok? && EntryBytes(a).value + x == EntryBytes(b).value + y
    ensures a == b && x == y
  {
    EntryInParts(a, x);
    EntryInParts(b, y);
    PrefixedIsDecodable(Encode(a.name), Encode(b.name), Prefixed(a.content).value + x, Prefixed(b.content).value + y);
    PrefixedIsDecodable(a.content, b.content, x, y);
    ByteOrderIsNameOrder(a.name, b.name);
  }

  lemma {:induction false} EntryInParts(e: Entry, rest: seq<Byte>)
    requires EntryBytes(e).Ok?
    ensures Prefixed(Encode(e.name)).Ok? && Prefixed(e.content).Ok?
    ensures EntryBytes(e).value + rest == Prefixed(Encode(e.name)).value + (Prefixed(e.content).value + rest)
  {
    var name, content := Prefixed(Encode(e.name)).value, Prefixed(e.content).value;
    assert name + content + rest == name + (content + rest);
  }

  lemma {:induction false} BothIsAssociative(a: Result<seq<Byte>, Fault>, b: Result<seq<Byte>, Fault>,
                                             c: Result<seq<Byte>, Fault>)
    ensures Both(Both(a, b), c) == Both(a, Both(b, c))
  {
    if a.Ok? && b.Ok? && c.Ok? {
      assert a.value + b.value + c.value == a.value + (b.value + c.value);
    }
  }

  /** The stream read from its front. */
  lemma {:induction false} FirstEntry(entries: seq<Entry>)
    requires entries != []
    ensures StreamBytes(entries) == Both(EntryBytes(entries[0]), StreamBytes(entries[1..]))
  {
    var before, last := entries[..|entries| - 1], entries[|entries| - 1];
    if before == [] {
      assert entries[1..] == [];
      OnlyEntry(EntryBytes(last));
    } else {
      FirstEntry(before);
      assert entries[1..][..|entries| - 2] == before[1..];
      BothIsAssociative(EntryBytes(entries[0]), StreamBytes(before[1..]), EntryBytes(last));
    }
  }

  lemma {:induction false} OnlyEntry(bytes: Result<seq<Byte>, Fault>)
    ensures Both(Ok([]), bytes) == bytes == Both(bytes, Ok([]))
  {
    if bytes.Ok? {
      assert [] + bytes.value == bytes.value == bytes.value + [];
    }
  }

  lemma {:induction false} OnlyNothingIsEmpty(entries: seq<Entry>)
    requires StreamBytes(entries).Ok?
    ensures StreamBytes(entries).value == [] <==> entries == []
  {
    if entries != [] {
      FirstEntry(entries);
    }
  }

  /** Different entry sequences give different byte strings. */
  lemma {:induction false} StreamIsDecodable(a: seq<Entry>, b: seq<Entry>)
    requires StreamBytes(a).Ok? && StreamBytes(a) == StreamBytes(b)
    ensures a == b
  {
    OnlyNothingIsEmpty(a);
    OnlyNothingIsEmpty(b);
    if a != [] {
      FirstEntry(a);
      FirstEntry(b);
      EntryIsDecodable(a[0], b[0], StreamBytes(a[1..]).value, StreamBytes(b[1..]).value);
      StreamIsDecodable(a[1..], b[1..]);
      assert a == [a[0]] + a[1..] && b == [b[0]] + b[1..];
    }
  }

  // ---- The order of the entries does not matter --------------------------

  /** The names of a dictionary are distinct. */
  ghost predicate Distinct(entries: seq<Entry>) {
    forall i, j | 0 <= i < j < |entries| :: entries[i].name != entries[j].name
  }

  /** The dictionary that a sequence of entries spells out. */
  function Dictionary(entries: seq<Entry>): map<string, seq<Byte>> {
    if entries == [] then map[]
    else Dictionary(entries[..|entries| - 1])[entries[|entries| - 1].name := entries[|entries| - 1].content]
  }

  ghost predicate Ascending(entries: seq<Entry>) {
    forall i, j | 0 <= i < j < |entries| :: NameLess(entries[i].name, entries[j].name)
  }

  lemma {:induction false} DictionaryHolds(entries: seq<Entry>, e: Entry)
    requires Distinct(entries)
    ensures e in entries <==> e.name in Dictionary(entries) && Dictionary(entries)[e.name] == e.content
    ensures e.name in Dictionary(entries) ==> exists i | 0 <= i < |entries| :: entries[i].name == e.name
  {
    if entries != [] {
      var before, last := entries[..|entries| - 1], entries[|entries| - 1];
      DictionaryHolds(before, e);
      if e.name == last.name {
        assert entries[|entries| - 1].name == e.name;
      } else {
        assert e in entries <==> e in before;
      }
    }
  }

  /** Inserting keeps the order and adds exactly the one entry. */
  lemma {:induction false} InsertedIsAscending(sorted: seq<Entry>, e: Entry)
    requires Ascending(sorted) && forall x | x in sorted :: x.name != e.name
    ensures
      var r := Inserted(sorted, e, ByCodePoint());
      Ascending(r) && |r| == |sorted| + 1 && forall x :: x in r <==> x in sorted || x == e
  {
    if sorted != [] {
      NamesAreComparable(e.name, sorted[0].name);
      if NameLess(e.name, sorted[0].name) {
        forall j | 0 < j < |sorted| ensures NameLess(e.name, sorted[j].name) {
          NameOrderIsTransitive(e.name, sorted[0].name, sorted[j].name);
        }
      } else {
        InsertedIsAscending(sorted[1..], e);
        var rest := Inserted(sorted[1..], e, ByCodePoint());
        assert forall x :: x in sorted <==> x == sorted[0] || x in sorted[1..];
        forall j | 0 <= j < |rest| ensures NameLess(sorted[0].name, rest[j].name) {
          assert rest[j] in rest;
        }
      }
    }
  }

  lemma {:induction false} SortedIsAscending(entries: seq<Entry>)
    requires Distinct(entries)
    ensures
      var r := SortedBy(entries, ByCodePoint());
      Ascending(r) && |r| == |entries| && forall x :: x in r <==> x in entries
  {
    if entries != [] {
      var before, last := entries[..|entries| - 1], entries[|entries| - 1];
      SortedIsAscending(before);
      assert forall x | x in before :: x.name != last.name;
      InsertedIsAscending(SortedBy(before, ByCodePoint()), last);
      assert forall x :: x in entries <==> x in before || x == last;
    }
  }

  /** There is one ascending sequence of a given set of entries. */
  lemma {:induction false} AscendingIsUnique(a: seq<Entry>, b: seq<Entry>)
    requires Ascending(a) && Ascending(b) && forall x :: x in a <==> x in b
    ensures a == b
  {
    HasAnEntry(a);
    HasAnEntry(b);
    if a != [] {
      assert a[0] in b;
      assert b[0] in a;
      var i :| 0 <= i < |b| && b[i] == a[0];
      var j :| 0 <= j < |a| && a[j] == b[0];
      if i > 0 {
        NameOrderIsStrict(b[0].name, b[i].name);
      }
      assert a[0] == b[0];
      forall x ensures x in a[1..] <==> x in b[1..] {
        RestOfAscending(a, x);
        RestOfAscending(b, x);
      }
      AscendingIsUnique(a[1..], b[1..]);
      assert a == [a[0]] + a[1..] && b == [b[0]] + b[1..];
    }
  }

  lemma {:induction false} HasAnEntry(a: seq<Entry>)
    ensures a != [] ==> exists x :: x in a
  {
    assert a != [] ==> a[0] in a;
  }

  lemma {:induction false} RestOfAscending(a: seq<Entry>, x: Entry)
    requires Ascending(a) && a != []
    ensures x in a[1..] <==> x in a && x != a[0]
  {
    if x in a[1..] {
      var i :| 0 <= i < |a[1..]| && a[1..][i] == x;
      NameOrderIsStrict(a[0].name, a[i + 1].name);
    }
  }

  // ---- The two laws of the digest ----------------------------------------

  /** The hashed bytes name the dictionary exactly: two packages give the same
      bytes if and only if they map the same names to the same contents, whatever
      the order in which the entries were added. */
  lemma {:induction false} BytesDetermineThePackage(a: seq<Entry>, b: seq<Entry>)
    requires Distinct(a) && Distinct(b) && PackageBytes(a).Ok? && PackageBytes(b).Ok?
    ensures PackageBytes(a) == PackageBytes(b) <==> Dictionary(a) == Dictionary(b)
  {
    if PackageBytes(a) == PackageBytes(b) {
      StreamIsDecodable(SortedBy(a, ByCodePoint()), SortedBy(b, ByCodePoint()));
      SortedIsAscending(a);
      SortedIsAscending(b);
      SameEntriesSameDictionary(a, b);
    }
    if Dictionary(a) == Dictionary(b) {
      OrderDoesNotMatter(a, b);
    }
  }

  lemma {:induction false} SameEntriesSameDictionary(a: seq<Entry>, b: seq<Entry>)
    requires Distinct(a) && Distinct(b) && forall x :: x in a <==> x in b
    ensures Dictionary(a) == Dictionary(b)
  {
    var left, right := Dictionary(a), Dictionary(b);
    forall name | name in left ensures name in right && right[name] == left[name] {
      DictionaryHolds(a, Entry(name, left[name]));
      DictionaryHolds(b, Entry(name, left[name]));
    }
    forall name | name in right ensures name in left {
      DictionaryHolds(b, Entry(name, right[name]));
      DictionaryHolds(a, Entry(name, right[name]));
    }
  }

  /** Insertion order changes neither the bytes nor whether they exist. */
  lemma {:induction false} OrderDoesNotMatter(a: seq<Entry>, b: seq<Entry>)
    requires Distinct(a) && Distinct(b) && Dictionary(a) == Dictionary(b)
    ensures PackageBytes(a) == PackageBytes(b)
  {
    SortedIsAscending(a);
    SortedIsAscending(b);
    forall x ensures x in a <==> x in b {
      DictionaryHolds(a, x);
      DictionaryHolds(b, x);
    }
    AscendingIsUnique(SortedBy(a, ByCodePoint()), SortedBy(b, ByCodePoint()));
  }

  lemma {:induction false} SameInsertion(sorted: seq<Entry>, e: Entry)
    ensures Inserted(sorted, e, ByCodePoint()) == Inserted(sorted, e, ByBytes())
  {
    if sorted != [] {
      ByteOrderIsNameOrder(e.name, sorted[0].name);
      SameInsertion(sorted[1..], e);
    }
  }

  /** An implementation that sorts the encoded names as bytes sorts the same way,
      and so computes the same digest. */
  lemma {:induction false} ByteSortingAgrees(entries: seq<Entry>)
    ensures SortedBy(entries, ByCodePoint()) == SortedBy(entries, ByBytes())
  {
    if entries != [] {
      ByteSortingAgrees(entries[..|entries| - 1]);
      SameInsertion(SortedBy(entries[..|entries| - 1], ByCodePoint()), entries[|entries| - 1]);
    }
  }

  /** The bytes exist exactly when every name and content is shorter than 2^64. */
  lemma {:induction false} BytesExist(entries: seq<Entry>)
    requires Distinct(entries)
    ensures PackageBytes(entries).Ok? <==>
            forall e | e in entries :: |Encode(e.name)| < 0x1_0000_0000_0000_0000
              && |e.content| < 0x1_0000_0000_0000_0000
  {
    SortedIsAscending(entries);
    StreamExists(SortedBy(entries, ByCodePoint()));
  }

  lemma {:induction false} StreamExists(entries: seq<Entry>)
    ensures StreamBytes(entries).Ok? <==>
            forall e | e in entries :: |Encode(e.name)| < 0x1_0000_0000_0000_0000
              && |e.content| < 0x1_0000_0000_0000_0000
  {
    LengthPrefixRange();
    if entries != [] {
      var before, last := entries[..|entries| - 1], entries[|entries| - 1];
      StreamExists(before);
      assert forall e :: e in entries <==> e in before || e == last;
    }
  }

  // ---- Reading the stream ------------------------------------------------

  /** A length in eight bytes and that many bytes: these and what follows them. */
  function ReadPrefixed(bytes: seq<Byte>): Option<(seq<Byte>, seq<Byte>)> {
    if |bytes| < LENGTH_BYTES || |bytes| - LENGTH_BYTES < Value(bytes[..LENGTH_BYTES]) then None
    else
      var end := LENGTH_BYTES + Value(bytes[..LENGTH_BYTES]);
      Some((bytes[LENGTH_BYTES..end], bytes[end..]))
  }

  /** A reader of the hashed bytes: encoded name, then content, entry after entry. */
  function ReadStream(bytes: seq<Byte>): Option<seq<(seq<Byte>, seq<Byte>)>>
    decreases |bytes|
  {
    if bytes == [] then Some([])
    else
      var name := ReadPrefixed(bytes);
      if name.None? then None
      else
        var content := ReadPrefixed(name.value.1);
        if content.None? then None
        else
          var rest := ReadStream(content.value.1);
          if rest.None? then None else Some([(name.value.0, content.value.0)] + rest.value)
  }

  /** What the reader gives for each entry. */
  function Pairs(entries: seq<Entry>): seq<(seq<Byte>, seq<Byte>)> {
    seq(|entries|, i requires 0 <= i < |entries| => (Encode(entries[i].name), entries[i].content))
  }

  lemma {:induction false} PrefixedReadsBack(part: seq<Byte>, rest: seq<Byte>)
    requires Prefixed(part).Ok?
    ensures ReadPrefixed(Prefixed(part).value + rest) == Some((part, rest))
  {
    var bytes := Prefixed(part).value + rest;
    assert bytes[..LENGTH_BYTES] == BigEndian(|part|, LENGTH_BYTES);
    BigEndianRoundTrip(|part|, LENGTH_BYTES);
  }

  lemma {:induction false} StreamReadsBack(entries: seq<Entry>)
    requires StreamBytes(entries).Ok?
    ensures ReadStream(StreamBytes(entries).value) == Some(Pairs(entries))
  {
    if entries != [] {
      FirstEntry(entries);
      StreamReadsBack(entries[1..]);
      FrontReadsBack(entries[0], StreamBytes(entries[1..]).value);
    }
    FirstPair(entries);
  }

  lemma {:induction false} FirstPair(entries: seq<Entry>)
    ensures Pairs(entries) ==
              if entries == [] then []
              else [(Encode(entries[0].name), entries[0].content)] + Pairs(entries[1..])
  {
  }

  lemma {:induction false} FrontReadsBack(e: Entry, rest: seq<Byte>)
    requires EntryBytes(e).Ok? && ReadStream(rest).Some?
    ensures ReadStream(EntryBytes(e).value + rest) == Some([(Encode(e.name), e.content)] + ReadStream(rest).value)
  {
    EntryInParts(e, rest);
    PrefixedReadsBack(Encode(e.name), Prefixed(e.content).value + rest);
    PrefixedReadsBack(e.content, rest);
  }

  /** What is hashed, read by that reader, is every entry of the package once, encoded
      name before content, in ascending order of names. */
  lemma {:induction false} PackageReadsBack(entries: seq<Entry>)
    requires Distinct(entries) && PackageBytes(entries).Ok?
    ensures
      var sorted := SortedBy(entries, ByCodePoint());
      && ReadStream(PackageBytes(entries).value) == Some(Pairs(sorted))
      && |sorted| == |entries| && (forall e :: e in sorted <==> e in entries)
      && forall i, j | 0 <= i < j < |sorted| :: NameLess(sorted[i].name, sorted[j].name)
  {
    SortedIsAscending(entries);
    StreamReadsBack(SortedBy(entries, ByCodePoint()));
  }
}
