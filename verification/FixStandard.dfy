/** Formatted messages against the FIX 4.2 rules for header, BodyLength (9) and CheckSum (10). */
module FixStandard {
  import opened Options
  import opened FixText
  import opened FixParser
  import opened FixStructure
  import opened FixSession

  const HEADER_TAGS: set<int> := {8, 9, 35, 49, 56, 34, 52}

  /** Header lookups see the header, whatever the body contains; other tags see the body first. */
  lemma LookupInMessage(msgType: seq<byte>, seqNum: nat, sender: seq<byte>, target: seq<byte>, ts: seq<byte>,
                        fs: seq<Field>, tag: int)
    requires AllCanonical(fs)
    ensures
      var raw := FormatBody(msgType, seqNum, sender, target, ts, BodyOf(fs));
      var all := MessageFields(msgType, seqNum, sender, target, ts, fs);
      Lookup(all, tag) ==
        if tag in HEADER_TAGS then Lookup(LeadFields(|raw|) + HeaderFields(msgType, seqNum, sender, target, ts), tag)
        else if Lookup(fs, tag) != None then Lookup(fs, tag)
        else Lookup([CheckField(FormatHeader(|raw|) + raw)], tag)
  {
    hide FormatBody, FormatHeader, BodyOf, CheckField, Dec, Bytes, Lookup;
    var raw := FormatBody(msgType, seqNum, sender, target, ts, BodyOf(fs));
    var lead, header := LeadFields(|raw|), HeaderFields(msgType, seqNum, sender, target, ts);
    var check := [CheckField(FormatHeader(|raw|) + raw)];
    LookupAppend(lead + (header + fs), check, tag);
    LookupAppend(lead, header + fs, tag);
    LookupAppend(header, fs, tag);
    LookupAppend(lead, header, tag);
    LookupTags(lead, tag);
    LookupTags(header, tag);
    assert lead[0].tag == 8 && lead[1].tag == 9 && header[0].tag == 35 && header[1].tag == 49
        && header[2].tag == 56 && header[3].tag == 34 && header[4].tag == 52;
    assert forall i | 0 <= i < |lead| :: lead[i].tag in HEADER_TAGS;
    assert forall i | 0 <= i < |header| :: header[i].tag in HEADER_TAGS;
  }

  /** A lookup succeeds exactly when some field has the tag. */
  lemma {:induction false} LookupTags(fs: seq<Field>, tag: int)
    ensures Lookup(fs, tag) != None <==> exists i | 0 <= i < |fs| :: fs[i].tag == tag
  {
    if fs != [] {
      LookupTags(fs[1..], tag);
      if exists i | 0 <= i < |fs| :: fs[i].tag == tag {
        var i :| 0 <= i < |fs| && fs[i].tag == tag;
        assert i > 0 ==> fs[1..][i-1].tag == tag;
      }
      if exists i | 0 <= i < |fs[1..]| :: fs[1..][i].tag == tag {
        var i :| 0 <= i < |fs[1..]| && fs[1..][i].tag == tag;
        assert fs[i+1].tag == tag;
      }
    }
  }

  /** What the readers of a formatted message find in its header. */
  lemma HeaderValues(msgType: seq<byte>, seqNum: nat, sender: seq<byte>, target: seq<byte>, ts: seq<byte>, fs: seq<Field>)
    requires HeaderFree(msgType, sender, target, ts) && AllCanonical(fs)
    ensures
      var fields := Fields(FormatMessage(msgType, seqNum, sender, target, ts, BodyOf(fs)));
      && Lookup(fields, 8) == Some(Bytes("FIX.4.2")) && Lookup(fields, 35) == Some(msgType)
      && Lookup(fields, 49) == Some(sender) && Lookup(fields, 56) == Some(target)
      && Lookup(fields, 34) == Some(Dec(seqNum)) && Lookup(fields, 52) == Some(ts)
      && Lookup(fields, 9) == Some(Dec(|FormatBody(msgType, seqNum, sender, target, ts, BodyOf(fs))|))
    ensures seqNum < TWO63 ==> IntValue(Dec(seqNum)) == Some(seqNum)
  {
    hide FormatBody, FormatHeader, FormatMessage, BodyOf, CheckField, Dec, Bytes, Fields, MessageFields, IntValue, Value;
    DecValue(seqNum);
    if seqNum < TWO63 { IntValueDigits(Dec(seqNum)); }
    FormatThenParse(msgType, seqNum, sender, target, ts, fs);
    forall tag | tag in HEADER_TAGS ensures
      Lookup(MessageFields(msgType, seqNum, sender, target, ts, fs), tag) ==
      Lookup(LeadFields(|FormatBody(msgType, seqNum, sender, target, ts, BodyOf(fs))|)
             + HeaderFields(msgType, seqNum, sender, target, ts), tag)
    {
      LookupInMessage(msgType, seqNum, sender, target, ts, fs, tag);
    }
    FirstSeven(|FormatBody(msgType, seqNum, sender, target, ts, BodyOf(fs))|, msgType, seqNum, sender, target, ts);
  }

  lemma FirstSeven(length: nat, msgType: seq<byte>, seqNum: nat, sender: seq<byte>, target: seq<byte>, ts: seq<byte>)
    ensures
      var l := LeadFields(length) + HeaderFields(msgType, seqNum, sender, target, ts);
      && Lookup(l, 8) == Some(Bytes("FIX.4.2")) && Lookup(l, 9) == Some(Dec(length)) && Lookup(l, 35) == Some(msgType)
      && Lookup(l, 49) == Some(sender) && Lookup(l, 56) == Some(target)
      && Lookup(l, 34) == Some(Dec(seqNum)) && Lookup(l, 52) == Some(ts)
  {
    hide Dec, Bytes;
    var l := LeadFields(length) + HeaderFields(msgType, seqNum, sender, target, ts);
    assert |l| == 7 && l[0].tag == 8 && l[1].tag == 9 && l[2].tag == 35 && l[3].tag == 49 && l[4].tag == 56
        && l[5].tag == 34 && l[6].tag == 52;
    forall k | 0 <= k < 7 ensures Lookup(l, l[k].tag) == Some(l[k].value) {
      FirstMatch(l, k);
    }
    assert Lookup(l, l[0].tag) == Some(l[0].value) && Lookup(l, l[1].tag) == Some(l[1].value);
    assert Lookup(l, l[2].tag) == Some(l[2].value) && Lookup(l, l[3].tag) == Some(l[3].value);
    assert Lookup(l, l[4].tag) == Some(l[4].value) && Lookup(l, l[5].tag) == Some(l[5].value);
    assert Lookup(l, l[6].tag) == Some(l[6].value);
  }

  lemma {:induction false} FirstMatch(l: seq<Field>, k: nat)
    requires k < |l| && forall i | 0 <= i < k :: l[i].tag != l[k].tag
    ensures Lookup(l, l[k].tag) == Some(l[k].value)
  {
    if k > 0 {
      FirstMatch(l[1..], k - 1);
    }
  }

  // ---- BodyLength and CheckSum ----------------------------------------------------------------------

  lemma ShiftFirst(tags: seq<TagValue>, d: nat)
    requires tags != []
    ensures Shift(tags, d) != [] && Shift(tags, d)[0] == TagValue(tags[0].tag, tags[0].start + d, tags[0].end + d)
  {
  }

  lemma ShiftOne(tag: int, start: nat, end: nat, d: nat)
    ensures Shift([TagValue(tag, start, end)], d) == [TagValue(tag, d + start, d + end)]
  {
    assert [TagValue(tag, start, end)][1..] == [];
  }

  lemma PrintLength(f: Field)
    requires Canonical(f)
    ensures |Print(f)| == |Dec(f.tag)| + 2 + |f.value|
  {
  }

  /** Where the second of two printed fields sits. */
  lemma SecondSpan(a: Field, b: Field, rest: seq<byte>)
    requires Canonical(a) && Canonical(b)
    ensures
      var tags, h := ParseFrom(Print(a) + Print(b) + rest, 0).tags, |Print(a)| + |Print(b)|;
      |tags| >= 2 && h - 1 - |b.value| >= 0 && tags[1] == TagValue(b.tag, h - 1 - |b.value|, h - 1)
  {
    hide ParseFrom, Dec, Print, Shift;
    PrintLength(b);
    ParsePrinted(a);
    ParsePrinted(b);
    ParseConcat(Print(b), rest);
    ParseConcat(Print(a), Print(b) + rest);
    ShiftFirst(ParseFrom(Print(b) + rest, 0).tags, |Print(a)|);
    assert Print(a) + (Print(b) + rest) == Print(a) + Print(b) + rest;
  }

  /** Where a field printed at the end sits. */
  lemma LastSpan(full: seq<byte>, f: Field)
    requires Complete(full) && Canonical(f)
    ensures
      ParseFrom(full + Print(f), 0).tags ==
      ParseFrom(full, 0).tags + [TagValue(f.tag, |full| + |Dec(f.tag)| + 1, |full| + |Dec(f.tag)| + 1 + |f.value|)]
  {
    hide ParseFrom, Dec, Print, Shift, Complete, Fields, Free;
    ParseConcat(full, Print(f));
    ShiftedSpan(f, |full|);
  }

  lemma ShiftedSpan(f: Field, d: nat)
    requires Canonical(f)
    ensures Shift(ParseFrom(Print(f), 0).tags, d) ==
            [TagValue(f.tag, d + |Dec(f.tag)| + 1, d + |Dec(f.tag)| + 1 + |f.value|)]
  {
    hide ParseFrom, Dec, Print, Shift, Complete, Fields, Free;
    ParsePrinted(f);
    ShiftOne(f.tag, |Dec(f.tag)| + 1, |Dec(f.tag)| + 1 + |f.value|, d);
  }

  /** Tag 9 is second, tag 10 is last and starts at `end`; they count and sum what they should. */
  ghost predicate WellFramed(msg: seq<byte>, end: nat) {
    var tags := ParseFrom(msg, 0).tags;
    && |tags| >= 2 && end + 6 < |msg|
    && var nine, ten := tags[1], tags[|tags| - 1];
    && nine.tag == 9 && nine.start <= nine.end < end
    && ten == TagValue(10, end + 3, end + 6) && msg[end..end + 3] == Bytes("10=")
    && IntValue(msg[nine.start..nine.end]) == Some(end - (nine.end + 1))
    && msg[ten.start..ten.end] == Dec3(ByteSum(msg[..end]) % 256)
  }

  lemma Framed(raw: seq<byte>)
    requires |raw| < TWO63 && Complete(FormatHeader(|raw|) + raw)
    ensures
      var full := FormatHeader(|raw|) + raw;
      WellFramed(full + Print(CheckField(full)), |full|)
  {
    hide ParseFrom, Dec, FormatHeader, ByteSum, Dec3, Bytes, IntValue, Complete, Print, Value;
    var full := FormatHeader(|raw|) + raw;
    var a, b, check := LeadFields(|raw|)[0], LeadFields(|raw|)[1], CheckField(full);
    LeadIsPrinted(|raw|);
    CheckIsPrinted(full);
    ShortTags(ByteSum(full) % 256);
    var msg := full + Print(check);
    var h := |Print(a)| + |Print(b)|;
    LastSpan(full, check);
    assert msg == Print(a) + Print(b) + (raw + Print(check));
    SecondSpan(a, b, raw + Print(check));
    PrintTail(a, b, raw + Print(check));
    DecValue(|raw|);
    IntValueDigits(Dec(|raw|));
    assert msg[|full|..|full| + 3] == Bytes("10=") && msg[|full| + 3..|full| + 6] == Dec3(ByteSum(full) % 256);
    assert msg[..|full|] == full;
  }

  lemma ShortTags(n: nat)
    requires n < 256
    ensures |Dec(10)| == 2 && |Bytes("10=")| == 3 && |Dec3(n)| == 3
  {
  }

  /** The value of the second printed field, read back from its span. */
  lemma PrintTail(a: Field, b: Field, rest: seq<byte>)
    requires Canonical(a) && Canonical(b)
    ensures
      var h := |Print(a)| + |Print(b)|;
      && 0 <= h - 1 - |b.value|
      && (Print(a) + Print(b) + rest)[h - 1 - |b.value|..h - 1] == b.value
  {
  }

  /**
   BodyLength counts the bytes between the SOH of field 9 and the start of field 10; CheckSum is
   three digits, the sum of all bytes before field 10 modulo 256.  The bound says only that the
   length is a 64-bit integer.
   */
  lemma BodyLengthAndCheckSum(msgType: seq<byte>, seqNum: nat, sender: seq<byte>, target: seq<byte>, ts: seq<byte>,
                              fs: seq<Field>)
    requires HeaderFree(msgType, sender, target, ts) && AllCanonical(fs)
    requires |FormatMessage(msgType, seqNum, sender, target, ts, BodyOf(fs))| < TWO63
    ensures
      var msg := FormatMessage(msgType, seqNum, sender, target, ts, BodyOf(fs));
      exists end: nat :: WellFramed(msg, end)
  {
    hide FormatBody, FormatHeader, BodyOf, ByteSum, Dec3, Bytes, Complete, Fields, Print, WellFramed, CheckField;
    var raw := FormatBody(msgType, seqNum, sender, target, ts, BodyOf(fs));
    var full := FormatHeader(|raw|) + raw;
    FullIsComplete(msgType, seqNum, sender, target, ts, fs);
    Framed(raw);
    CheckIsPrinted(full);
    assert full + Print(CheckField(full)) == FormatMessage(msgType, seqNum, sender, target, ts, BodyOf(fs));
  }

  /** Looking up tag 10 finds the checksum, unless the body has a field 10 of its own. */
  lemma CheckSumLookup(msgType: seq<byte>, seqNum: nat, sender: seq<byte>, target: seq<byte>, ts: seq<byte>,
                       fs: seq<Field>)
    requires HeaderFree(msgType, sender, target, ts) && AllCanonical(fs)
    ensures
      var raw := FormatBody(msgType, seqNum, sender, target, ts, BodyOf(fs));
      var msg := FormatMessage(msgType, seqNum, sender, target, ts, BodyOf(fs));
      Lookup(Fields(msg), 10) ==
        if Lookup(fs, 10) == None then Some(Dec3(ByteSum(FormatHeader(|raw|) + raw) % 256)) else Lookup(fs, 10)
  {
    hide FormatBody, FormatHeader, FormatMessage, BodyOf, Fields, MessageFields, ByteSum, Dec3;
    FormatThenParse(msgType, seqNum, sender, target, ts, fs);
    LookupInMessage(msgType, seqNum, sender, target, ts, fs, 10);
  }

  lemma FullIsComplete(msgType: seq<byte>, seqNum: nat, sender: seq<byte>, target: seq<byte>, ts: seq<byte>, fs: seq<Field>)
    requires HeaderFree(msgType, sender, target, ts) && AllCanonical(fs)
    ensures
      var raw := FormatBody(msgType, seqNum, sender, target, ts, BodyOf(fs));
      && Complete(FormatHeader(|raw|) + raw)
      && Fields(FormatHeader(|raw|) + raw) == LeadFields(|raw|) + (HeaderFields(msgType, seqNum, sender, target, ts) + fs)
  {
    hide FormatBody, FormatHeader, BodyOf, PrintAll, LeadFields, HeaderFields, AllCanonical, Complete, Fields;
    var raw := FormatBody(msgType, seqNum, sender, target, ts, BodyOf(fs));
    var mid := HeaderFields(msgType, seqNum, sender, target, ts) + fs;
    BodyIsPrinted(msgType, seqNum, sender, target, ts, fs);
    LeadIsPrinted(|raw|);
    PrintAppend(LeadFields(|raw|), mid);
    RoundTrip(LeadFields(|raw|) + mid);
  }
}
