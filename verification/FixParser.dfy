/** The tag-value parser: spans into the buffer, first-match lookup, integer fields. */
module FixParser {
  import opened Options
  import opened FixText

  datatype TagValue = TagValue(tag: int, start: nat, end: nat)

  /** `stop` is where the loop left off: the start of the part it did not consume. */
  datatype Parsed = Parsed(tags: seq<TagValue>, ok: bool, stop: nat)

  /** What the parse loop produces from position `idx` on. */
  function ParseFrom(data: seq<byte>, idx: nat): (r: Parsed)
    ensures r.stop >= idx
    decreases |data| + 1 - idx
  {
    if idx >= |data| then Parsed([], true, idx)
    else
      var eq := IndexByte(data, idx, EQ);
      if eq == -1 then Parsed([], true, idx)
      else
        var tag := Atoi(data[idx..eq]);
        if tag == None then Parsed([], false, idx)
        else
          var end := ValueEnd(data, eq);
          var rest := ParseFrom(data, end + 1);
          Parsed([TagValue(tag.value, eq + 1, end)] + rest.tags, rest.ok, rest.stop)
  }

  /** A value runs to the next SOH, or to the end of the data. */
  function ValueEnd(data: seq<byte>, eq: nat): (end: nat)
    requires eq < |data| && data[eq] == EQ
    ensures eq < end <= |data|
    ensures forall i | eq <= i < end :: data[i] != SOH
    ensures end < |data| ==> data[end] == SOH
  {
    var soh := IndexByte(data, eq, SOH);
    if soh == -1 then |data| else soh
  }

  /** `p` after the tags found so far. */
  function Behind(tags: seq<TagValue>, p: Parsed): Parsed {
    p.(tags := tags + p.tags)
  }

  lemma ParseEnds(data: seq<byte>, idx: nat)
    requires idx >= |data|
    ensures ParseFrom(data, idx) == Parsed([], true, idx)
  {
  }

  lemma ParseStep(data: seq<byte>, idx: nat, tags: seq<TagValue>)
    requires idx < |data|
    ensures
      var eq := IndexByte(data, idx, EQ);
      if eq == -1 then ParseFrom(data, idx) == Parsed([], true, idx)
      else if Atoi(data[idx..eq]) == None then ParseFrom(data, idx) == Parsed([], false, idx)
      else
        var tv := TagValue(Atoi(data[idx..eq]).value, eq + 1, ValueEnd(data, eq));
        Behind(tags, ParseFrom(data, idx)) == Behind(tags + [tv], ParseFrom(data, ValueEnd(data, eq) + 1))
  {
    hide IndexByte, Atoi, ValueEnd;
    var eq := IndexByte(data, idx, EQ);
    if eq != -1 && Atoi(data[idx..eq]) != None {
      var tv := TagValue(Atoi(data[idx..eq]).value, eq + 1, ValueEnd(data, eq));
      var rest := ParseFrom(data, ValueEnd(data, eq) + 1).tags;
      assert tags + ([tv] + rest) == tags + [tv] + rest;
    }
  }

  /** Position of the first tag equal to `tag`, or the number of tags. */
  function FindTag(tags: seq<TagValue>, tag: int): (k: nat)
    ensures k <= |tags|
    ensures k < |tags| ==> tags[k].tag == tag
    ensures forall i | 0 <= i < k :: tags[i].tag != tag
  {
    if tags == [] || tags[0].tag == tag then 0 else 1 + FindTag(tags[1..], tag)
  }

  /** The integer parser of values: digits only, wrapping at 64 bits. */
  function IntValue(val: seq<byte>): Option<int> {
    if val == [] then Some(0)
    else
      var front, d := IntValue(val[..|val| - 1]), val[|val| - 1];
      if front == None || !IsDigit(d) then None else Some(Wrap64(front.value * 10 + (d - ZERO)))
  }

  class Message {
    var raw: seq<byte>
    var tags: seq<TagValue>

    constructor ()
      ensures raw == [] && tags == []
    {
      raw, tags := [], [];
    }

    /** Every stored span lies in the buffer. */
    ghost predicate Valid()
      reads this
    {
      forall i | 0 <= i < |tags| :: tags[i].start <= tags[i].end <= |raw|
    }

    method Parse(data: seq<byte>) returns (ok: bool)
      modifies this
      ensures raw == data && Valid()
      ensures var p := ParseFrom(data, 0); tags == p.tags && ok == p.ok
    {
      hide ParseFrom, Atoi;
      raw := data;
      tags := [];
      var idx := 0;
      while idx < |data|
        invariant 0 <= idx <= |data| + 1 && raw == data && Valid()
        invariant ParseFrom(data, 0) == Behind(tags, ParseFrom(data, idx))
        decreases |data| + 1 - idx
      {
        ParseStep(data, idx, tags);
        var eqIdx := IndexByte(data, idx, EQ);
        if eqIdx == -1 {
          return true;
        }
        var tagVal := Atoi(data[idx..eqIdx]);
        if tagVal == None {
          return false;
        }
        var sohIdx := IndexByte(data, eqIdx, SOH);
        if sohIdx == -1 {
          sohIdx := |data|;
        }
        tags := tags + [TagValue(tagVal.value, eqIdx + 1, sohIdx)];
        idx := sohIdx + 1;
      }
      ParseEnds(data, idx);
      ok := true;
    }

    method GetField(tag: int) returns (val: seq<byte>, found: bool)
      requires Valid()
      ensures
        var k := FindTag(tags, tag);
        && found == (k < |tags|)
        && val == if found then raw[tags[k].start..tags[k].end] else []
    {
      var i := 0;
      while i < |tags|
        invariant 0 <= i <= |tags|
        invariant forall j | 0 <= j < i :: tags[j].tag != tag
      {
        if tags[i].tag == tag {
          return raw[tags[i].start..tags[i].end], true;
        }
        i := i + 1;
      }
      return [], false;
    }

    /** None stands for the error return, of a missing tag or of a byte that is no digit. */
    method GetInt(tag: int) returns (r: Option<int>)
      requires Valid()
      ensures
        var k := FindTag(tags, tag);
        r == if k < |tags| then IntValue(raw[tags[k].start..tags[k].end]) else None
    {
      var val, found := GetField(tag);
      if !found {
        return None;
      }
      var res := 0;
      var i := 0;
      while i < |val|
        invariant 0 <= i <= |val|
        invariant IntValue(val[..i]) == Some(res)
      {
        assert val[..i+1][..i] == val[..i];
        if val[i] < ZERO || val[i] > ZERO + 9 {
          IntValueBad(val, i);
          return None;
        }
        res := Wrap64(res * 10 + (val[i] - ZERO));
        i := i + 1;
      }
      assert val[..|val|] == val;
      r := Some(res);
    }
  }

  lemma {:induction false} IntValueBad(val: seq<byte>, i: nat)
    requires i < |val| && !IsDigit(val[i])
    ensures IntValue(val) == None
  {
    if i < |val| - 1 {
      IntValueBad(val[..|val| - 1], i);
    }
  }

  lemma {:induction false} IntValueDigits(val: seq<byte>)
    requires AllDigits(val) && Value(val) < TWO63
    ensures IntValue(val) == Some(Value(val))
  {
    if val != [] {
      IntValueDigits(val[..|val| - 1]);
    }
  }

  /** The integer parser accepts exactly digits, and reads them as the number they stand for, modulo 2^64. */
  lemma {:induction false} IntValueMeans(val: seq<byte>)
    ensures IntValue(val) == if AllDigits(val) then Some(Wrap64(Value(val))) else None
  {
    hide Wrap64;
    if val == [] {
      NoDigits();
    } else {
      var front, d := val[..|val| - 1], val[|val| - 1];
      IntValueMeans(front);
      assert val == front + [d];
      if AllDigits(val) {
        WrapStep(Value(front), d - ZERO);
      }
    }
  }

  lemma NoDigits()
    ensures AllDigits([]) && Value([]) == 0 && Wrap64(0) == 0
  {
  }
}
