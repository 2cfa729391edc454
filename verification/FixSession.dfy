/**
 The session: every chunk read from the socket is parsed as one message and answered by a
 printed one.  Time stamps and execution numbers come from the clock and are parameters.
 */
module FixSession {
  import opened FixText
  import opened FixStructure

  predicate Ascii(s: string) {
    forall i | 0 <= i < |s| :: s[i] as int < 256
  }

  function Bytes(s: string): seq<byte>
    requires Ascii(s)
  {
    seq(|s|, i requires 0 <= i < |s| => s[i] as int)
  }

  function ByteSum(s: seq<byte>): nat {
    if s == [] then 0 else ByteSum(s[..|s| - 1]) + s[|s| - 1]
  }

  /** The checksum's sum counts every byte once, wherever the text is cut. */
  lemma {:induction false} ByteSumAppend(a: seq<byte>, b: seq<byte>)
    ensures ByteSum(a + b) == ByteSum(a) + ByteSum(b)
  {
    if b == [] {
      assert a + b == a;
    } else {
      assert (a + b)[..|a + b| - 1] == a + b[..|b| - 1];
      ByteSumAppend(a, b[..|b| - 1]);
    }
  }

  lemma ByteSumOne(x: byte)
    ensures ByteSum([]) == 0 && ByteSum([x]) == x
  {
    assert [x][..0] == [];
  }

  /** The part that BodyLength counts. */
  function FormatBody(msgType: seq<byte>, seqNum: nat, sender: seq<byte>, target: seq<byte>, ts: seq<byte>,
                      body: seq<byte>): seq<byte> {
    Bytes("35=") + msgType + [SOH] + Bytes("49=") + sender + [SOH] + Bytes("56=") + target + [SOH]
    + Bytes("34=") + Dec(seqNum) + [SOH] + Bytes("52=") + ts + [SOH]
    + if body != [] then body + [SOH] else []
  }

  function FormatHeader(length: nat): seq<byte> {
    Bytes("8=FIX.4.2") + [SOH] + Bytes("9=") + Dec(length) + [SOH]
  }

  function FormatMessage(msgType: seq<byte>, seqNum: nat, sender: seq<byte>, target: seq<byte>, ts: seq<byte>,
                         body: seq<byte>): seq<byte> {
    var raw := FormatBody(msgType, seqNum, sender, target, ts, body);
    var full := FormatHeader(|raw|) + raw;
    full + Bytes("10=") + Dec3(ByteSum(full) % 256) + [SOH]
  }

  method FormatFixMessage(msgType: seq<byte>, seqNum: nat, sender: seq<byte>, target: seq<byte>, ts: seq<byte>,
                          body: seq<byte>) returns (msg: seq<byte>)
    ensures msg == FormatMessage(msgType, seqNum, sender, target, ts, body)
  {
    hide FormatBody, FormatHeader;
    var raw := FormatBody(msgType, seqNum, sender, target, ts, body);
    var full := FormatHeader(|raw|) + raw;
    var sum: int := 0;
    for i := 0 to |full|
      invariant sum == ByteSum(full[..i])
    {
      assert full[..i+1][..i] == full[..i];
      sum := sum + full[i];
    }
    assert full[..|full|] == full;
    msg := full + Bytes("10=") + Dec3(sum % 256) + [SOH];
  }

  // ---- a formatted message is a printed list of fields ----------------------------------------------

  /** Body text: the printed fields without the last SOH, which the formatter adds. */
  function BodyOf(fs: seq<Field>): seq<byte>
    requires AllCanonical(fs)
  {
    var all := PrintAll(fs);
    if fs == [] then [] else if all == [] then [] else all[..|all| - 1]
  }

  function HeaderFields(msgType: seq<byte>, seqNum: nat, sender: seq<byte>, target: seq<byte>, ts: seq<byte>): seq<Field> {
    [Field(35, msgType), Field(49, sender), Field(56, target), Field(34, Dec(seqNum)), Field(52, ts)]
  }

  lemma {:induction false} PrintEnds(fs: seq<Field>)
    requires AllCanonical(fs) && fs != []
    ensures BodyOf(fs) != [] && PrintAll(fs) == BodyOf(fs) + [SOH]
  {
    hide Print;
    PrintShape(fs[0]);
    if |fs| == 1 {
      PrintOne(fs[0]);
      assert fs == [fs[0]];
    } else {
      PrintEnds(fs[1..]);
    }
  }

  lemma PrintShape(f: Field)
    requires Canonical(f)
    ensures |Print(f)| >= 2 && Print(f)[|Print(f)| - 1] == SOH
  {
  }

  lemma TagTexts()
    ensures Bytes("35=") == Dec(35) + [EQ] && Bytes("49=") == Dec(49) + [EQ] && Bytes("56=") == Dec(56) + [EQ]
    ensures Bytes("34=") == Dec(34) + [EQ] && Bytes("52=") == Dec(52) + [EQ]
    ensures Bytes("9=") == Dec(9) + [EQ] && Bytes("10=") == Dec(10) + [EQ]
    ensures Bytes("8=FIX.4.2") == Dec(8) + [EQ] + Bytes("FIX.4.2")
  {
  }

  lemma PrintFive(a: Field, b: Field, c: Field, d: Field, e: Field)
    requires Canonical(a) && Canonical(b) && Canonical(c) && Canonical(d) && Canonical(e)
    ensures AllCanonical([a, b, c, d, e])
    ensures PrintAll([a, b, c, d, e]) == Print(a) + Print(b) + Print(c) + Print(d) + Print(e)
  {
    hide Print, Canonical;
    PrintOne(a); PrintOne(b); PrintOne(c); PrintOne(d); PrintOne(e);
    PrintAppend([a], [b]);
    PrintAppend([a] + [b], [c]);
    PrintAppend([a] + [b] + [c], [d]);
    PrintAppend([a] + [b] + [c] + [d], [e]);
    assert [a, b, c, d, e] == [a] + [b] + [c] + [d] + [e];
  }

  lemma BodyIsPrinted(msgType: seq<byte>, seqNum: nat, sender: seq<byte>, target: seq<byte>, ts: seq<byte>, fs: seq<Field>)
    requires Free(msgType, SOH) && Free(sender, SOH) && Free(target, SOH) && Free(ts, SOH) && AllCanonical(fs)
    ensures
      var header := HeaderFields(msgType, seqNum, sender, target, ts);
      && AllCanonical(header) && AllCanonical(header + fs)
      && FormatBody(msgType, seqNum, sender, target, ts, BodyOf(fs)) == PrintAll(header + fs)
  {
    hide Dec, Bytes, BodyOf, PrintAll, Free;
    DecFree(seqNum);
    TagTexts();
    var header := HeaderFields(msgType, seqNum, sender, target, ts);
    PrintFive(header[0], header[1], header[2], header[3], header[4]);
    PrintAppend(header, fs);
    var tail := if BodyOf(fs) != [] then BodyOf(fs) + [SOH] else [];
    assert PrintAll(fs) == tail by {
      if fs == [] { NoFields(); } else { PrintEnds(fs); }
    }
    assert FormatBody(msgType, seqNum, sender, target, ts, BodyOf(fs)) ==
           Print(header[0]) + Print(header[1]) + Print(header[2]) + Print(header[3]) + Print(header[4]) + tail;
  }

  lemma NoFields()
    ensures PrintAll([]) == [] && BodyOf([]) == []
  {
  }

  predicate HeaderFree(msgType: seq<byte>, sender: seq<byte>, target: seq<byte>, ts: seq<byte>) {
    Free(msgType, SOH) && Free(sender, SOH) && Free(target, SOH) && Free(ts, SOH)
  }

  function LeadFields(length: nat): seq<Field> {
    [Field(8, Bytes("FIX.4.2")), Field(9, Dec(length))]
  }

  function CheckField(full: seq<byte>): Field {
    Field(10, Dec3(ByteSum(full) % 256))
  }

  /** All fields of a formatted message, in order. */
  function MessageFields(msgType: seq<byte>, seqNum: nat, sender: seq<byte>, target: seq<byte>, ts: seq<byte>,
                         fs: seq<Field>): seq<Field>
    requires AllCanonical(fs)
  {
    var raw := FormatBody(msgType, seqNum, sender, target, ts, BodyOf(fs));
    LeadFields(|raw|) + (HeaderFields(msgType, seqNum, sender, target, ts) + fs) + [CheckField(FormatHeader(|raw|) + raw)]
  }

  lemma LeadIsPrinted(length: nat)
    ensures AllCanonical(LeadFields(length)) && PrintAll(LeadFields(length)) == FormatHeader(length)
    ensures FormatHeader(length) == Print(LeadFields(length)[0]) + Print(LeadFields(length)[1])
  {
    hide Dec, PrintAll;
    TagTexts();
    DecFree(length);
    var a, b := LeadFields(length)[0], LeadFields(length)[1];
    PrintOne(a);
    PrintOne(b);
    PrintAppend([a], [b]);
    assert LeadFields(length) == [a] + [b];
  }

  lemma CheckIsPrinted(full: seq<byte>)
    ensures Canonical(CheckField(full))
    ensures Print(CheckField(full)) == Bytes("10=") + Dec3(ByteSum(full) % 256) + [SOH]
  {
    TagTexts();
    Dec3Value(ByteSum(full) % 256);
    assert forall i | 0 <= i < 3 :: IsDigit(Dec3(ByteSum(full) % 256)[i]);
  }

  lemma MessageIsPrinted(msgType: seq<byte>, seqNum: nat, sender: seq<byte>, target: seq<byte>, ts: seq<byte>,
                         fs: seq<Field>)
    requires HeaderFree(msgType, sender, target, ts) && AllCanonical(fs)
    ensures
      var all := MessageFields(msgType, seqNum, sender, target, ts, fs);
      AllCanonical(all) && FormatMessage(msgType, seqNum, sender, target, ts, BodyOf(fs)) == PrintAll(all)
  {
    hide FormatBody, FormatHeader, BodyOf, PrintAll, Print, CheckField, LeadFields, HeaderFields, AllCanonical, Bytes, Dec3;
    var raw := FormatBody(msgType, seqNum, sender, target, ts, BodyOf(fs));
    var full := FormatHeader(|raw|) + raw;
    var lead, mid := LeadFields(|raw|), HeaderFields(msgType, seqNum, sender, target, ts) + fs;
    BodyIsPrinted(msgType, seqNum, sender, target, ts, fs);
    LeadIsPrinted(|raw|);
    CheckIsPrinted(full);
    PrintOne(CheckField(full));
    PrintAppend(lead, mid);
    PrintAppend(lead + mid, [CheckField(full)]);
  }

  /** A formatted message parses completely, to exactly the fields that went in. */
  lemma FormatThenParse(msgType: seq<byte>, seqNum: nat, sender: seq<byte>, target: seq<byte>, ts: seq<byte>,
                        fs: seq<Field>)
    requires HeaderFree(msgType, sender, target, ts) && AllCanonical(fs)
    ensures
      var msg := FormatMessage(msgType, seqNum, sender, target, ts, BodyOf(fs));
      Complete(msg) && Fields(msg) == MessageFields(msgType, seqNum, sender, target, ts, fs)
  {
    MessageIsPrinted(msgType, seqNum, sender, target, ts, fs);
    RoundTrip(MessageFields(msgType, seqNum, sender, target, ts, fs));
  }
}
