/** What parsing means: well-placed spans, compositionality, and the printer it inverts. */
module FixStructure {
  import opened Options
  import opened FixText
  import opened FixParser

  /** A span sits right of an equals sign, holds no SOH, and ends at an SOH or at the end. */
  predicate GoodSpan(data: seq<byte>, tv: TagValue) {
    && 0 < tv.start <= tv.end <= |data| && data[tv.start - 1] == EQ
    && Free(data[tv.start..tv.end], SOH) && (tv.end < |data| ==> data[tv.end] == SOH)
  }

  predicate Apart(tags: seq<TagValue>) {
    forall i, j | 0 <= i < j < |tags| :: tags[i].end < tags[j].start
  }

  lemma ApartCons(tv: TagValue, tags: seq<TagValue>)
    requires Apart(tags) && forall i | 0 <= i < |tags| :: tv.end < tags[i].start
    ensures Apart([tv] + tags)
  {
  }

  lemma NoSpans()
    ensures Apart([])
  {
  }

  lemma FirstSpan(data: seq<byte>, eq: nat, tag: int)
    requires eq < |data| && data[eq] == EQ
    ensures GoodSpan(data, TagValue(tag, eq + 1, ValueEnd(data, eq)))
  {
    hide IndexByte;
  }

  /** On any bytes: spans are in bounds, ordered and disjoint, and what is left over is explained. */
  lemma {:induction false} ParseSpans(data: seq<byte>, idx: nat)
    ensures
      var p := ParseFrom(data, idx);
      && (forall i | 0 <= i < |p.tags| :: idx < p.tags[i].start && GoodSpan(data, p.tags[i]))
      && Apart(p.tags)
      && (p.ok ==> forall i | p.stop <= i < |data| :: data[i] != EQ)
      && (!p.ok ==> p.stop < |data| && IndexByte(data, p.stop, EQ) != -1
                    && Atoi(data[p.stop..IndexByte(data, p.stop, EQ)]) == None)
    decreases |data| + 1 - idx
  {
    hide IndexByte, Atoi, ValueEnd, GoodSpan, Apart;
    NoSpans();
    if idx < |data| {
      var eq := IndexByte(data, idx, EQ);
      if eq != -1 && Atoi(data[idx..eq]) != None {
        var tag, end := Atoi(data[idx..eq]).value, ValueEnd(data, eq);
        FirstSpan(data, eq, tag);
        ParseSpans(data, end + 1);
        ApartCons(TagValue(tag, eq + 1, end), ParseFrom(data, end + 1).tags);
      }
    }
  }

  /** The text from here to the first equals sign reads as this tag. */
  predicate TagText(data: seq<byte>, from: int, tv: TagValue) {
    && 0 <= from < tv.start <= |data| && data[tv.start - 1] == EQ
    && Free(data[from..tv.start - 1], EQ) && Atoi(data[from..tv.start - 1]) == Some(tv.tag)
  }

  /** Each tag is the text right behind the previous value, and `stop` is right behind the last. */
  predicate Chained(data: seq<byte>, from: int, tags: seq<TagValue>, stop: int)
    decreases |tags|
  {
    if tags == [] then stop == from
    else TagText(data, from, tags[0]) && Chained(data, tags[0].end + 1, tags[1..], stop)
  }

  /** The parser skips nothing. */
  lemma {:induction false} ParseTags(data: seq<byte>, idx: nat)
    ensures var p := ParseFrom(data, idx); Chained(data, idx, p.tags, p.stop)
    decreases |data| + 1 - idx
  {
    hide IndexByte, Atoi, ValueEnd, TagText;
    if idx < |data| {
      var eq := IndexByte(data, idx, EQ);
      if eq != -1 && Atoi(data[idx..eq]) != None {
        var tv := TagValue(Atoi(data[idx..eq]).value, eq + 1, ValueEnd(data, eq));
        FirstText(data, idx, eq, tv);
        ParseTags(data, ValueEnd(data, eq) + 1);
        assert ParseFrom(data, idx).tags[1..] == ParseFrom(data, ValueEnd(data, eq) + 1).tags;
      }
    }
  }

  lemma FirstText(data: seq<byte>, idx: nat, eq: nat, tv: TagValue)
    requires idx <= eq < |data| && data[eq] == EQ && tv.start == eq + 1 && Atoi(data[idx..eq]) == Some(tv.tag)
    requires forall i | idx <= i < eq :: data[i] != EQ
    ensures TagText(data, idx, tv)
  {
    hide Atoi;
  }

  // ---- parsing is compositional -----------------------------------------------------------------------

  function Shift(tags: seq<TagValue>, d: nat): seq<TagValue> {
    if tags == [] then []
    else [TagValue(tags[0].tag, tags[0].start + d, tags[0].end + d)] + Shift(tags[1..], d)
  }

  lemma {:induction false} IndexShift(a: seq<byte>, b: seq<byte>, j: nat, c: byte)
    requires j <= |b|
    ensures IndexByte(a + b, |a| + j, c) == if IndexByte(b, j, c) == -1 then -1 else |a| + IndexByte(b, j, c)
    decreases |b| - j
  {
    if j < |b| && b[j] != c {
      IndexShift(a, b, j + 1, c);
    }
  }

  lemma {:induction false} IndexPrefix(a: seq<byte>, b: seq<byte>, i: nat, c: byte)
    requires i <= |a| && IndexByte(a, i, c) != -1
    ensures IndexByte(a + b, i, c) == IndexByte(a, i, c)
    decreases |a| - i
  {
    if a[i] != c {
      IndexPrefix(a, b, i + 1, c);
    }
  }

  lemma EndShift(a: seq<byte>, b: seq<byte>, eq: nat)
    requires eq < |b| && b[eq] == EQ
    ensures (a + b)[|a| + eq] == EQ && ValueEnd(a + b, |a| + eq) == |a| + ValueEnd(b, eq)
  {
    hide IndexByte;
    IndexShift(a, b, eq, SOH);
  }

  lemma EndPrefix(a: seq<byte>, b: seq<byte>, eq: nat)
    requires eq < |a| && a[eq] == EQ && ValueEnd(a, eq) < |a|
    ensures (a + b)[eq] == EQ && ValueEnd(a + b, eq) == ValueEnd(a, eq)
  {
    hide IndexByte;
    IndexPrefix(a, b, eq, SOH);
  }

  /** One field at `idx`, with its equals sign at `eq`. */
  lemma ParseField(data: seq<byte>, idx: nat, eq: nat)
    requires idx < |data| && IndexByte(data, idx, EQ) == eq && Atoi(data[idx..eq]) != None
    ensures
      var end := ValueEnd(data, eq);
      var rest := ParseFrom(data, end + 1);
      ParseFrom(data, idx) ==
        Parsed([TagValue(Atoi(data[idx..eq]).value, eq + 1, end)] + rest.tags, rest.ok, rest.stop)
  {
    hide IndexByte, Atoi, ValueEnd;
  }

  lemma ParseNone(data: seq<byte>, idx: nat)
    requires idx >= |data| || IndexByte(data, idx, EQ) == -1
    ensures ParseFrom(data, idx) == Parsed([], true, idx)
  {
    hide IndexByte;
  }

  lemma ParseBad(data: seq<byte>, idx: nat)
    requires idx < |data| && IndexByte(data, idx, EQ) != -1 && Atoi(data[idx..IndexByte(data, idx, EQ)]) == None
    ensures ParseFrom(data, idx) == Parsed([], false, idx)
  {
    hide IndexByte, Atoi;
  }

  lemma {:induction false} ParseShift(a: seq<byte>, b: seq<byte>, j: nat)
    ensures
      var p := ParseFrom(b, j);
      ParseFrom(a + b, |a| + j) == Parsed(Shift(p.tags, |a|), p.ok, |a| + p.stop)
    decreases |b| + 1 - j
  {
    hide IndexByte, Atoi, ValueEnd, ParseFrom;
    if j >= |b| {
      ParseNone(b, j);
      ParseNone(a + b, |a| + j);
    } else {
      IndexShift(a, b, j, EQ);
      var eq := IndexByte(b, j, EQ);
      if eq == -1 {
        ParseNone(b, j);
        ParseNone(a + b, |a| + j);
      } else {
        assert (a + b)[|a| + j..|a| + eq] == b[j..eq];
        if Atoi(b[j..eq]) == None {
          ParseBad(b, j);
          ParseBad(a + b, |a| + j);
        } else {
          EndShift(a, b, eq);
          ParseField(b, j, eq);
          ParseField(a + b, |a| + j, |a| + eq);
          ParseShift(a, b, ValueEnd(b, eq) + 1);
          assert ParseFrom(b, j).tags[1..] == ParseFrom(b, ValueEnd(b, eq) + 1).tags;
        }
      }
    }
  }

  lemma {:induction false} ParsePrefix(a: seq<byte>, b: seq<byte>, idx: nat)
    requires idx <= |a| && ParseFrom(a, idx).ok && ParseFrom(a, idx).stop == |a|
    ensures ParseFrom(a + b, idx) == Behind(ParseFrom(a, idx).tags, ParseFrom(a + b, |a|))
    decreases |a| - idx
  {
    hide IndexByte, Atoi, ValueEnd, ParseFrom;
    if idx == |a| {
      ParseNone(a, idx);
      assert [] + ParseFrom(a + b, |a|).tags == ParseFrom(a + b, |a|).tags;
    } else {
      MoreToParse(a, idx);
      var eq := IndexByte(a, idx, EQ);
      var end := ValueEnd(a, eq);
      IndexPrefix(a, b, idx, EQ);
      assert (a + b)[idx..eq] == a[idx..eq];
      EndPrefix(a, b, eq);
      ParseField(a, idx, eq);
      ParseField(a + b, idx, eq);
      ParsePrefix(a, b, end + 1);
      var tv := TagValue(Atoi(a[idx..eq]).value, eq + 1, end);
      var l, r := ParseFrom(a, end + 1).tags, ParseFrom(a + b, |a|).tags;
      assert [tv] + (l + r) == [tv] + l + r;
    }
  }

  /** If the parser gets exactly to the end, then what is ahead is a field closed by an SOH. */
  lemma MoreToParse(a: seq<byte>, idx: nat)
    requires idx < |a| && ParseFrom(a, idx).ok && ParseFrom(a, idx).stop == |a|
    ensures
      var eq := IndexByte(a, idx, EQ);
      && eq != -1 && Atoi(a[idx..eq]) != None && ValueEnd(a, eq) < |a|
      && ParseFrom(a, ValueEnd(a, eq) + 1).ok && ParseFrom(a, ValueEnd(a, eq) + 1).stop == |a|
  {
    hide IndexByte, Atoi, ValueEnd;
  }

  /** Bytes that the parser consumes to the end, each field closed by its SOH. */
  predicate Complete(a: seq<byte>) {
    ParseFrom(a, 0).ok && ParseFrom(a, 0).stop == |a|
  }

  /** Parsing a complete message followed by anything is parsing the two one after the other. */
  lemma ParseConcat(a: seq<byte>, b: seq<byte>)
    requires Complete(a)
    ensures
      var p, q := ParseFrom(a, 0), ParseFrom(b, 0);
      ParseFrom(a + b, 0) == Parsed(p.tags + Shift(q.tags, |a|), q.ok, |a| + q.stop)
  {
    hide ParseFrom;
    ParsePrefix(a, b, 0);
    ParseShift(a, b, 0);
  }

  // ---- fields -----------------------------------------------------------------------------------------

  datatype Field = Field(tag: int, value: seq<byte>)

  function Cut(data: seq<byte>, tv: TagValue): seq<byte> {
    if tv.start <= tv.end <= |data| then data[tv.start..tv.end] else []
  }

  function Read(data: seq<byte>, tags: seq<TagValue>): seq<Field> {
    if tags == [] then [] else [Field(tags[0].tag, Cut(data, tags[0]))] + Read(data, tags[1..])
  }

  /** The fields a message shows to its readers. */
  function Fields(data: seq<byte>): seq<Field> {
    Read(data, ParseFrom(data, 0).tags)
  }

  predicate InBounds(tags: seq<TagValue>, n: nat) {
    forall i | 0 <= i < |tags| :: tags[i].start <= tags[i].end <= n
  }

  lemma {:induction false} ReadAppend(data: seq<byte>, p: seq<TagValue>, q: seq<TagValue>)
    ensures Read(data, p + q) == Read(data, p) + Read(data, q)
  {
    if p == [] {
      assert p + q == q;
    } else {
      assert (p + q)[1..] == p[1..] + q;
      ReadAppend(data, p[1..], q);
    }
  }

  lemma CutLeft(a: seq<byte>, b: seq<byte>, tv: TagValue)
    requires tv.start <= tv.end <= |a|
    ensures Cut(a + b, tv) == Cut(a, tv)
  {
  }

  lemma CutRight(a: seq<byte>, b: seq<byte>, tv: TagValue)
    requires tv.start <= tv.end <= |b|
    ensures Cut(a + b, TagValue(tv.tag, tv.start + |a|, tv.end + |a|)) == Cut(b, tv)
  {
  }

  lemma {:induction false} ReadLeft(a: seq<byte>, b: seq<byte>, p: seq<TagValue>)
    requires InBounds(p, |a|)
    ensures Read(a + b, p) == Read(a, p)
  {
    if p != [] {
      ReadLeft(a, b, p[1..]);
      CutLeft(a, b, p[0]);
    }
  }

  lemma {:induction false} ReadRight(a: seq<byte>, b: seq<byte>, q: seq<TagValue>)
    requires InBounds(q, |b|)
    ensures Read(a + b, Shift(q, |a|)) == Read(b, q)
  {
    if q != [] {
      hide Cut;
      ReadRight(a, b, q[1..]);
      assert Shift(q, |a|)[1..] == Shift(q[1..], |a|);
      CutRight(a, b, q[0]);
    }
  }

  lemma FieldsConcat(a: seq<byte>, b: seq<byte>)
    requires Complete(a)
    ensures Fields(a + b) == Fields(a) + Fields(b)
    ensures Complete(b) ==> Complete(a + b)
  {
    hide ParseFrom, Read;
    ParseConcat(a, b);
    ParseSpans(a, 0);
    ParseSpans(b, 0);
    var p, q := ParseFrom(a, 0).tags, ParseFrom(b, 0).tags;
    ReadAppend(a + b, p, Shift(q, |a|));
    ReadLeft(a, b, p);
    ReadRight(a, b, q);
  }

  /** First-match lookup. */
  function Lookup(fs: seq<Field>, tag: int): Option<seq<byte>> {
    if fs == [] then None else if fs[0].tag == tag then Some(fs[0].value) else Lookup(fs[1..], tag)
  }

  /** What `GetField` returns is the first field with that tag. */
  lemma {:induction false} LookupIsFindTag(data: seq<byte>, tags: seq<TagValue>, tag: int)
    ensures
      var k := FindTag(tags, tag);
      Lookup(Read(data, tags), tag) == if k < |tags| then Some(Cut(data, tags[k])) else None
  {
    if tags != [] {
      LookupIsFindTag(data, tags[1..], tag);
      assert Read(data, tags)[1..] == Read(data, tags[1..]);
    }
  }

  lemma {:induction false} LookupAppend(a: seq<Field>, b: seq<Field>, tag: int)
    ensures Lookup(a + b, tag) == if Lookup(a, tag) != None then Lookup(a, tag) else Lookup(b, tag)
  {
    if a == [] {
      assert a + b == b;
    } else {
      assert (a + b)[1..] == a[1..] + b;
      LookupAppend(a[1..], b, tag);
    }
  }

  /** No value a parser hands out contains an SOH. */
  lemma {:induction false} ReadFree(data: seq<byte>, tags: seq<TagValue>)
    requires forall i | 0 <= i < |tags| :: GoodSpan(data, tags[i])
    ensures forall i | 0 <= i < |Read(data, tags)| :: Free(Read(data, tags)[i].value, SOH)
  {
    if tags != [] {
      ReadFree(data, tags[1..]);
    }
  }

  lemma {:induction false} LookupFree(fs: seq<Field>, tag: int)
    requires forall i | 0 <= i < |fs| :: Free(fs[i].value, SOH)
    ensures Lookup(fs, tag) != None ==> Free(Lookup(fs, tag).value, SOH)
  {
    if fs != [] && fs[0].tag != tag {
      LookupFree(fs[1..], tag);
    }
  }

  // ---- the printer ------------------------------------------------------------------------------------

  function Print(f: Field): seq<byte>
    requires f.tag >= 0
  {
    Dec(f.tag) + [EQ] + f.value + [SOH]
  }

  predicate Canonical(f: Field) {
    0 <= f.tag < TWO63 && Free(f.value, SOH)
  }

  predicate AllCanonical(fs: seq<Field>) {
    forall i | 0 <= i < |fs| :: Canonical(fs[i])
  }

  function PrintAll(fs: seq<Field>): seq<byte>
    requires AllCanonical(fs)
  {
    if fs == [] then [] else Print(fs[0]) + PrintAll(fs[1..])
  }

  lemma IndexAt(data: seq<byte>, i: nat, c: byte, k: nat)
    requires i <= k < |data| && data[k] == c && forall j | i <= j < k :: data[j] != c
    ensures IndexByte(data, i, c) == k
  {
  }

  /** One printed field parses to itself and is consumed completely. */
  lemma ParsePrinted(f: Field)
    requires Canonical(f)
    ensures
      var n := |Dec(f.tag)|;
      ParseFrom(Print(f), 0) == Parsed([TagValue(f.tag, n + 1, n + 1 + |f.value|)], true, |Print(f)|)
    ensures Complete(Print(f)) && Fields(Print(f)) == [f]
  {
    hide IndexByte, Atoi, ParseFrom, Dec;
    var data, n := Print(f), |Dec(f.tag)|;
    DecFree(f.tag);
    DecNonEmpty(f.tag);
    IndexAt(data, 0, EQ, n);
    assert data[0..n] == Dec(f.tag);
    AtoiDec(f.tag);
    assert forall j | n <= j < n + 1 + |f.value| :: data[j] != SOH by {
      assert forall j | n + 1 <= j < n + 1 + |f.value| :: data[j] == f.value[j - n - 1];
    }
    IndexAt(data, n, SOH, n + 1 + |f.value|);
    ParseField(data, 0, n);
    ParseNone(data, |data|);
    assert data[n + 1..n + 1 + |f.value|] == f.value;
    var tags := [TagValue(f.tag, n + 1, n + 1 + |f.value|)];
    assert ParseFrom(data, 0).tags == tags && tags[1..] == [];
    assert Read(data, tags) == [Field(f.tag, Cut(data, tags[0]))] + Read(data, []);
  }

  lemma DecNonEmpty(n: nat)
    ensures Dec(n) != []
  {
  }

  lemma {:induction false} PrintAppend(a: seq<Field>, b: seq<Field>)
    requires AllCanonical(a) && AllCanonical(b)
    ensures AllCanonical(a + b) && PrintAll(a + b) == PrintAll(a) + PrintAll(b)
  {
    hide Print, Canonical;
    if a == [] {
      assert a + b == b;
    } else {
      assert (a + b)[1..] == a[1..] + b;
      PrintAppend(a[1..], b);
    }
  }

  lemma PrintOne(f: Field)
    requires Canonical(f)
    ensures AllCanonical([f]) && PrintAll([f]) == Print(f)
  {
    assert [f][1..] == [];
  }

  /** Parsing inverts printing, for any list of canonical fields. */
  lemma {:induction false} RoundTrip(fs: seq<Field>)
    requires AllCanonical(fs)
    ensures Complete(PrintAll(fs)) && Fields(PrintAll(fs)) == fs
  {
    if fs == [] {
      ParseNone([], 0);
    } else {
      hide ParseFrom, Print, Fields, Complete;
      ParsePrinted(fs[0]);
      RoundTrip(fs[1..]);
      FieldsConcat(Print(fs[0]), PrintAll(fs[1..]));
    }
  }
}
