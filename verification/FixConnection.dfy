/** The message loop of one connection: which chunks are answered, with what, and in which order. */
module FixConnection {
  import opened Options
  import opened FixText
  import opened FixParser
  import opened FixStructure
  import opened FixSession
  import opened FixStandard

  /** One read from the socket, with the time stamp and the clock reading that went into its reply. */
  datatype Chunk = Chunk(data: seq<byte>, ts: seq<byte>, nano: int)

  const LOGON: seq<byte> := Bytes("A")
  const HEARTBEAT: seq<byte> := Bytes("0")
  const NEW_ORDER: seq<byte> := Bytes("D")
  const EXECUTION_REPORT: seq<byte> := Bytes("8")
  const ENGINE: seq<byte> := Bytes("ENGINE")
  const EXEC: seq<byte> := Bytes("exec-")
  const TRADE: seq<byte> := Bytes("trade-")
  const FILLED: seq<byte> := Bytes("2")

  /** A missing tag reads as the empty string. */
  function Get(fs: seq<Field>, tag: int): seq<byte> {
    if Lookup(fs, tag) == None then [] else Lookup(fs, tag).value
  }

  function LogonBody(): seq<byte> {
    Bytes("98=0") + [SOH] + Bytes("108=30")
  }

  function ReportIds(order: seq<byte>, nano: int): seq<byte> {
    Bytes("37=exec-") + order + [SOH] + Bytes("11=") + order + [SOH] + Bytes("17=trade-") + DecInt(nano)
  }

  function ReportTerms(symbol: seq<byte>, side: seq<byte>, qty: seq<byte>, price: seq<byte>): seq<byte> {
    Bytes("55=") + symbol + [SOH] + Bytes("54=") + side + [SOH] + Bytes("38=") + qty + [SOH] + Bytes("44=") + price
  }

  function ReportBody(order: seq<byte>, symbol: seq<byte>, side: seq<byte>, qty: seq<byte>, price: seq<byte>,
                      nano: int): seq<byte> {
    ReportIds(order, nano) + [SOH] + Bytes("150=2") + [SOH] + Bytes("39=2") + [SOH] + ReportTerms(symbol, side, qty, price)
  }

  /** The reply to one chunk, if it gets one. */
  function Reply(c: Chunk, seqNum: nat): Option<seq<byte>> {
    var fs := Fields(c.data);
    if !ParseFrom(c.data, 0).ok || Lookup(fs, 35) == None then None
    else
      var msgType, sender := Get(fs, 35), Get(fs, 49);
      if msgType == LOGON then
        Some(FormatMessage(LOGON, seqNum, ENGINE, sender, c.ts, LogonBody()))
      else if msgType == HEARTBEAT then
        Some(FormatMessage(HEARTBEAT, seqNum, ENGINE, sender, c.ts, []))
      else if msgType == NEW_ORDER then
        Some(FormatMessage(EXECUTION_REPORT, seqNum, ENGINE, sender, c.ts,
                           ReportBody(Get(fs, 11), Get(fs, 55), Get(fs, 54), Get(fs, 38), Get(fs, 44), c.nano)))
      else None
  }

  /** All replies on a connection, whose sequence numbers start at 1. */
  function Replies(cs: seq<Chunk>): seq<seq<byte>> {
    if cs == [] then []
    else
      var before := Replies(cs[..|cs| - 1]);
      var r := Reply(cs[|cs| - 1], |before| + 1);
      before + if r == None then [] else [r.value]
  }

  class Connection {
    const msg: Message
    var seqNum: nat

    constructor ()
      ensures seqNum == 1 && fresh(msg)
    {
      msg := new Message();
      seqNum := 1;
    }

    method GetString(tag: int) returns (val: seq<byte>, found: bool)
      requires msg.Valid() && msg.tags == ParseFrom(msg.raw, 0).tags
      ensures val == Get(Fields(msg.raw), tag) && (found <==> Lookup(Fields(msg.raw), tag) != None)
    {
      hide ParseFrom, Read, Lookup;
      val, found := msg.GetField(tag);
      LookupIsFindTag(msg.raw, msg.tags, tag);
    }

    method HandleChunk(c: Chunk) returns (reply: Option<seq<byte>>)
      modifies this, msg
      ensures reply == Reply(c, old(seqNum))
      ensures seqNum == old(seqNum) + if reply == None then 0 else 1
    {
      hide ParseFrom, Fields, Lookup, FormatMessage, LogonBody, ReportBody, Get;
      reply := None;
      var ok := msg.Parse(c.data);
      if !ok {
        return;
      }
      var msgType, found := GetString(35);
      if !found {
        return;
      }
      var sender, _ := GetString(49);
      if msgType == LOGON {
        var ack := FormatFixMessage(LOGON, seqNum, ENGINE, sender, c.ts, LogonBody());
        reply := Some(ack);
        seqNum := seqNum + 1;
      } else if msgType == HEARTBEAT {
        var hb := FormatFixMessage(HEARTBEAT, seqNum, ENGINE, sender, c.ts, []);
        reply := Some(hb);
        seqNum := seqNum + 1;
      } else if msgType == NEW_ORDER {
        var order, _ := GetString(11);
        var symbol, _ := GetString(55);
        var side, _ := GetString(54);
        var price, _ := GetString(44);
        var qty, _ := GetString(38);
        var body := ReportBody(order, symbol, side, qty, price, c.nano);
        var report := FormatFixMessage(EXECUTION_REPORT, seqNum, ENGINE, sender, c.ts, body);
        reply := Some(report);
        seqNum := seqNum + 1;
      }
    }

    method HandleConnection(cs: seq<Chunk>) returns (replies: seq<seq<byte>>)
      requires seqNum == 1
      modifies this, msg
      ensures replies == Replies(cs) && seqNum == |replies| + 1
    {
      hide Reply;
      replies := [];
      for i := 0 to |cs|
        invariant replies == Replies(cs[..i]) && seqNum == |replies| + 1
      {
        assert cs[..i+1][..i] == cs[..i];
        var r := HandleChunk(cs[i]);
        if r != None {
          replies := replies + [r.value];
        }
      }
      assert cs[..|cs|] == cs;
    }
  }

  // ---- what the counterparty can rely on -----------------------------------------------------------------

  function LogonFields(): seq<Field> {
    [Field(98, Bytes("0")), Field(108, Bytes("30"))]
  }

  function ReportFields(order: seq<byte>, symbol: seq<byte>, side: seq<byte>, qty: seq<byte>, price: seq<byte>,
                        nano: int): seq<Field> {
    [Field(37, Bytes("exec-") + order), Field(11, order), Field(17, Bytes("trade-") + DecInt(nano)),
     Field(150, Bytes("2")), Field(39, Bytes("2")), Field(55, symbol), Field(54, side), Field(38, qty), Field(44, price)]
  }

  lemma {:induction false} BodyTail(f: Field, fs: seq<Field>)
    requires Canonical(f) && AllCanonical(fs)
    ensures AllCanonical([f] + fs)
    ensures BodyOf([f] + fs) == Dec(f.tag) + [EQ] + f.value + if fs == [] then [] else [SOH] + BodyOf(fs)
  {
    hide Dec;
    PrintOne(f);
    PrintAppend([f], fs);
    if fs == [] {
      assert [f] + fs == [f];
    } else {
      PrintEnds(fs);
    }
  }

  lemma MoreTagTexts()
    ensures Bytes("37=exec-") == Dec(37) + [EQ] + Bytes("exec-") && Bytes("11=") == Dec(11) + [EQ]
    ensures Bytes("17=trade-") == Dec(17) + [EQ] + Bytes("trade-") && Bytes("150=2") == Dec(150) + [EQ] + Bytes("2")
    ensures Bytes("39=2") == Dec(39) + [EQ] + Bytes("2") && Bytes("55=") == Dec(55) + [EQ]
    ensures Bytes("54=") == Dec(54) + [EQ] && Bytes("38=") == Dec(38) + [EQ] && Bytes("44=") == Dec(44) + [EQ]
    ensures Free(Bytes("exec-"), SOH) && Free(Bytes("trade-"), SOH) && Free(Bytes("2"), SOH)
  {
  }

  lemma LogonIsBody()
    ensures AllCanonical(LogonFields()) && LogonBody() == BodyOf(LogonFields())
  {
    var a, b := LogonFields()[0], LogonFields()[1];
    assert Bytes("98=0") == Dec(98) + [EQ] + Bytes("0") && Bytes("108=30") == Dec(108) + [EQ] + Bytes("30");
    BodyTail(b, []);
    assert [b] + [] == [b];
    BodyTail(a, [b]);
    assert [a] + [b] == LogonFields();
  }

  lemma ReportCanonical(order: seq<byte>, symbol: seq<byte>, side: seq<byte>, qty: seq<byte>, price: seq<byte>, nano: int)
    requires Free(order, SOH) && Free(symbol, SOH) && Free(side, SOH) && Free(qty, SOH) && Free(price, SOH)
    ensures AllCanonical(ReportFields(order, symbol, side, qty, price, nano))
  {
    hide Dec, Bytes;
    MoreTagTexts();
    DecIntFree(nano);
  }

  lemma ReportIsBody(order: seq<byte>, symbol: seq<byte>, side: seq<byte>, qty: seq<byte>, price: seq<byte>, nano: int)
    requires Free(order, SOH) && Free(symbol, SOH) && Free(side, SOH) && Free(qty, SOH) && Free(price, SOH)
    ensures
      var fs := ReportFields(order, symbol, side, qty, price, nano);
      AllCanonical(fs) && ReportBody(order, symbol, side, qty, price, nano) == BodyOf(fs)
  {
    hide Dec, DecInt, Bytes, BodyOf, Free, Canonical, AllCanonical, ReportIds, ReportTerms;
    var fs := ReportFields(order, symbol, side, qty, price, nano);
    ReportCanonical(order, symbol, side, qty, price, nano);
    SubCanonical(fs, 0, 3);
    SubCanonical(fs, 3, 5);
    SubCanonical(fs, 5, 9);
    SubCanonical(fs, 3, 9);
    ThreeFields(fs[0..3], order, nano);
    TwoFields(fs[3..5]);
    FourFields(fs[5..9], symbol, side, qty, price);
    BodyConcat(fs[3..5], fs[5..9]);
    assert fs[3..5] + fs[5..9] == fs[3..9];
    BodyConcat(fs[0..3], fs[3..9]);
    assert fs[0..3] + fs[3..9] == fs;
  }

  lemma SubCanonical(fs: seq<Field>, i: nat, j: nat)
    requires AllCanonical(fs) && i <= j <= |fs|
    ensures AllCanonical(fs[i..j])
  {
  }

  lemma BodyConcat(a: seq<Field>, b: seq<Field>)
    requires AllCanonical(a) && AllCanonical(b) && a != [] && b != []
    ensures AllCanonical(a + b) && BodyOf(a + b) == BodyOf(a) + [SOH] + BodyOf(b)
  {
    hide PrintAll;
    PrintEnds(a);
    PrintEnds(b);
    PrintAppend(a, b);
    PrintEnds(a + b);
    assert BodyOf(a + b) + [SOH] == (BodyOf(a) + [SOH] + BodyOf(b)) + [SOH];
    assert BodyOf(a + b) == (BodyOf(a + b) + [SOH])[..|BodyOf(a + b)|];
  }

  lemma ThreeFields(fs: seq<Field>, order: seq<byte>, nano: int)
    requires AllCanonical(fs)
    requires fs == [Field(37, Bytes("exec-") + order), Field(11, order), Field(17, Bytes("trade-") + DecInt(nano))]
    ensures BodyOf(fs) == ReportIds(order, nano)
  {
    hide Dec, DecInt, Bytes, BodyOf, Free;
    MoreTagTexts();
    TailOf(fs, 0); TailOf(fs, 1); TailOf(fs, 2);
    assert fs[0..] == fs;
  }

  lemma TwoFields(fs: seq<Field>)
    requires AllCanonical(fs) && fs == [Field(150, Bytes("2")), Field(39, Bytes("2"))]
    ensures BodyOf(fs) == Bytes("150=2") + [SOH] + Bytes("39=2")
  {
    hide Dec, Bytes, BodyOf, Free;
    MoreTagTexts();
    TailOf(fs, 0); TailOf(fs, 1);
    assert fs[0..] == fs;
  }

  lemma BodyOfTwo(a: Field, b: Field)
    requires AllCanonical([a, b])
    ensures a.tag >= 0 && b.tag >= 0
    ensures BodyOf([a, b]) == (Dec(a.tag) + [EQ] + a.value) + [SOH] + (Dec(b.tag) + [EQ] + b.value)
  {
    hide Dec, BodyOf, Free;
    var fs := [a, b];
    TailOf(fs, 0);
    TailOf(fs, 1);
    assert fs[0..] == fs;
    assert Dec(b.tag) + [EQ] + b.value + [] == Dec(b.tag) + [EQ] + b.value;
  }

  lemma FourFields(fs: seq<Field>, symbol: seq<byte>, side: seq<byte>, qty: seq<byte>, price: seq<byte>)
    requires AllCanonical(fs) && fs == [Field(55, symbol), Field(54, side), Field(38, qty), Field(44, price)]
    ensures BodyOf(fs) == ReportTerms(symbol, side, qty, price)
  {
    hide Dec, Bytes, BodyOf, Free, Canonical;
    MoreTagTexts();
    SubCanonical(fs, 0, 2);
    SubCanonical(fs, 2, 4);
    assert fs[0..2] == [fs[0], fs[1]] && fs[2..4] == [fs[2], fs[3]] && fs == fs[0..2] + fs[2..4];
    BodyOfTwo(fs[0], fs[1]);
    BodyOfTwo(fs[2], fs[3]);
    BodyConcat(fs[0..2], fs[2..4]);
    Regroup(Bytes("55=") + symbol, Bytes("54=") + side, Bytes("38=") + qty, Bytes("44=") + price);
    TermsGrouped(symbol, side, qty, price);
  }

  lemma TermsGrouped(symbol: seq<byte>, side: seq<byte>, qty: seq<byte>, price: seq<byte>)
    ensures
      var a, b, c, d := Bytes("55=") + symbol, Bytes("54=") + side, Bytes("38=") + qty, Bytes("44=") + price;
      ReportTerms(symbol, side, qty, price) == a + [SOH] + b + [SOH] + c + [SOH] + d
  {
    hide Bytes;
    var a, b, c := Bytes("55=") + symbol, Bytes("54=") + side, Bytes("38=") + qty;
    assert a + [SOH] + Bytes("54=") + side == a + [SOH] + b;
    assert a + [SOH] + b + [SOH] + Bytes("38=") + qty == a + [SOH] + b + [SOH] + c;
  }

  lemma Regroup(a: seq<byte>, b: seq<byte>, c: seq<byte>, d: seq<byte>)
    ensures (a + [SOH] + b) + [SOH] + (c + [SOH] + d) == a + [SOH] + b + [SOH] + c + [SOH] + d
  {
  }

  /** The body from field `k` on. */
  lemma TailOf(fs: seq<Field>, k: nat)
    requires AllCanonical(fs) && k < |fs|
    ensures AllCanonical(fs[k..]) && AllCanonical(fs[k+1..]) && fs[k].tag >= 0
    ensures BodyOf(fs[k..]) ==
            Dec(fs[k].tag) + [EQ] + fs[k].value + if k + 1 == |fs| then [] else [SOH] + BodyOf(fs[k+1..])
  {
    assert fs[k..] == [fs[k]] + fs[k+1..];
    BodyTail(fs[k], fs[k+1..]);
  }

  /** Everything read out of a chunk is free of SOH. */
  lemma GetFree(data: seq<byte>, tag: int)
    ensures Free(Get(Fields(data), tag), SOH)
  {
    hide ParseFrom, Read, Lookup;
    ParseSpans(data, 0);
    ReadFree(data, ParseFrom(data, 0).tags);
    LookupFree(Fields(data), tag);
  }

  /** A reply is a formatted message around canonical body fields. */
  lemma ReplyShape(c: Chunk, seqNum: nat) returns (msgType: seq<byte>, fs: seq<Field>)
    requires Free(c.ts, SOH) && Reply(c, seqNum) != None
    ensures Free(msgType, SOH) && AllCanonical(fs) && HeaderFree(msgType, ENGINE, Get(Fields(c.data), 49), c.ts)
    ensures Reply(c, seqNum) ==
            Some(FormatMessage(msgType, seqNum, ENGINE, Get(Fields(c.data), 49), c.ts, BodyOf(fs)))
    ensures
      var inp := Fields(c.data);
      && (Get(inp, 35) == LOGON ==> msgType == LOGON && fs == LogonFields())
      && (Get(inp, 35) == HEARTBEAT ==> msgType == HEARTBEAT && fs == [])
      && (Get(inp, 35) == NEW_ORDER ==>
            msgType == EXECUTION_REPORT &&
            fs == ReportFields(Get(inp, 11), Get(inp, 55), Get(inp, 54), Get(inp, 38), Get(inp, 44), c.nano))
  {
    hide FormatMessage, Fields, Get, Lookup, ParseFrom, ReportBody, ReportFields, LogonBody, LogonFields, BodyOf,
         AllCanonical;
    var inp := Fields(c.data);
    GetFree(c.data, 49);
    TypesFree();
    if Get(inp, 35) == LOGON {
      LogonIsBody();
      msgType, fs := LOGON, LogonFields();
    } else if Get(inp, 35) == HEARTBEAT {
      NoFields();
      msgType, fs := HEARTBEAT, [];
    } else {
      GetFree(c.data, 11); GetFree(c.data, 55); GetFree(c.data, 54); GetFree(c.data, 38); GetFree(c.data, 44);
      ReportIsBody(Get(inp, 11), Get(inp, 55), Get(inp, 54), Get(inp, 38), Get(inp, 44), c.nano);
      msgType, fs := EXECUTION_REPORT,
        ReportFields(Get(inp, 11), Get(inp, 55), Get(inp, 54), Get(inp, 38), Get(inp, 44), c.nano);
    }
  }

  lemma TypesFree()
    ensures Free(LOGON, SOH) && Free(HEARTBEAT, SOH) && Free(EXECUTION_REPORT, SOH) && Free(ENGINE, SOH)
    ensures NEW_ORDER != LOGON && NEW_ORDER != HEARTBEAT && LOGON != HEARTBEAT && AllCanonical([])
  {
    assert NEW_ORDER[0] != LOGON[0] && NEW_ORDER[0] != HEARTBEAT[0] && LOGON[0] != HEARTBEAT[0];
  }

  /** A chunk that parses, with this message type. */
  predicate Says(c: Chunk, msgType: seq<byte>) {
    ParseFrom(c.data, 0).ok && Lookup(Fields(c.data), 35) == Some(msgType)
  }

  /** The fields of a reply to `c`: the header of the engine, addressed to the sender, around `body`. */
  predicate AnswersWith(r: Option<seq<byte>>, c: Chunk, n: nat, msgType: seq<byte>, body: seq<Field>) {
    && r != None && AllCanonical(body) && Complete(r.value)
    && Fields(r.value) == MessageFields(msgType, n, Bytes("ENGINE"), Get(Fields(c.data), 49), c.ts, body)
  }

  /** A logon is answered by a logon with encryption 0 and a heartbeat interval of 30. */
  lemma LogonAnswered(c: Chunk, n: nat)
    requires Free(c.ts, SOH) && Says(c, Bytes("A"))
    ensures AnswersWith(Reply(c, n), c, n, Bytes("A"), [Field(98, Bytes("0")), Field(108, Bytes("30"))])
  {
    hide ParseFrom, Fields, Lookup, FormatMessage, MessageFields, AllCanonical, Complete, BodyOf, ReportFields;
    var msgType, fs := ReplyShape(c, n);
    FormatThenParse(msgType, n, ENGINE, Get(Fields(c.data), 49), c.ts, fs);
  }

  /** A heartbeat is answered by a heartbeat without a body. */
  lemma HeartbeatAnswered(c: Chunk, n: nat)
    requires Free(c.ts, SOH) && Says(c, Bytes("0"))
    ensures AnswersWith(Reply(c, n), c, n, Bytes("0"), [])
  {
    hide ParseFrom, Fields, Lookup, FormatMessage, MessageFields, AllCanonical, Complete, BodyOf, ReportFields;
    TypesFree();
    var msgType, fs := ReplyShape(c, n);
    FormatThenParse(msgType, n, ENGINE, Get(Fields(c.data), 49), c.ts, fs);
  }

  /** A new order is answered by an execution report: a full fill that repeats the order's terms. */
  lemma OrderAnswered(c: Chunk, n: nat)
    requires Free(c.ts, SOH) && Says(c, Bytes("D"))
    ensures
      var inp := Fields(c.data);
      AnswersWith(Reply(c, n), c, n, Bytes("8"),
        [Field(37, EXEC + Get(inp, 11)), Field(11, Get(inp, 11)), Field(17, TRADE + DecInt(c.nano)),
         Field(150, FILLED), Field(39, FILLED),
         Field(55, Get(inp, 55)), Field(54, Get(inp, 54)), Field(38, Get(inp, 38)), Field(44, Get(inp, 44))])
  {
    hide ParseFrom, Fields, Lookup, FormatMessage, MessageFields, AllCanonical, Complete, BodyOf, DecInt;
    TypesFree();
    var msgType, fs := ReplyShape(c, n);
    FormatThenParse(msgType, n, ENGINE, Get(Fields(c.data), 49), c.ts, fs);
  }

  /** Everything else is dropped: what does not parse, has no message type, or has another one. */
  lemma OthersDropped(c: Chunk, n: nat)
    requires !Says(c, Bytes("A")) && !Says(c, Bytes("0")) && !Says(c, Bytes("D"))
    ensures Reply(c, n) == None
  {
    hide ParseFrom, Fields, Lookup, FormatMessage;
  }

  /** A chunk is answered when it parses and has one of the three supported message types. */
  predicate Accepted(c: Chunk) {
    var fs := Fields(c.data);
    ParseFrom(c.data, 0).ok && Lookup(fs, 35) != None &&
    (Get(fs, 35) == LOGON || Get(fs, 35) == HEARTBEAT || Get(fs, 35) == NEW_ORDER)
  }

  function OnlyAccepted(cs: seq<Chunk>): seq<Chunk> {
    if cs == [] then []
    else OnlyAccepted(cs[..|cs| - 1]) + if Accepted(cs[|cs| - 1]) then [cs[|cs| - 1]] else []
  }

  lemma ReplyIffAccepted(c: Chunk, n: nat)
    ensures Reply(c, n) != None <==> Accepted(c)
  {
    hide FormatMessage, Fields, Lookup, ParseFrom, ReportBody, LogonBody, Get;
  }

  lemma OneMore(cs: seq<Chunk>)
    ensures cs == [] ==> Replies(cs) == [] && OnlyAccepted(cs) == []
    ensures
      cs != [] ==>
        var front, last := cs[..|cs| - 1], cs[|cs| - 1];
        var r := Reply(last, |Replies(front)| + 1);
        && Replies(cs) == Replies(front) + (if r == None then [] else [r.value])
        && OnlyAccepted(cs) == OnlyAccepted(front) + if Accepted(last) then [last] else []
  {
    hide Reply, Accepted;
  }

  /** Every accepted chunk gets the next sequence number; dropped ones leave no trace at all. */
  lemma {:induction false} NumberedWithoutGaps(cs: seq<Chunk>)
    ensures |Replies(cs)| == |OnlyAccepted(cs)|
    ensures forall k | 0 <= k < |Replies(cs)| :: Some(Replies(cs)[k]) == Reply(OnlyAccepted(cs)[k], k + 1)
  {
    hide Reply, Accepted, Replies, OnlyAccepted;
    OneMore(cs);
    if cs != [] {
      var front, last := cs[..|cs| - 1], cs[|cs| - 1];
      NumberedWithoutGaps(front);
      ReplyIffAccepted(last, |Replies(front)| + 1);
    }
  }

  /** A reply carries its sequence number in tag 34, as text and as an integer. */
  lemma ReplyNumber(c: Chunk, n: nat)
    requires Free(c.ts, SOH) && Accepted(c)
    ensures
      var r := Reply(c, n);
      && r != None && Complete(r.value) && Lookup(Fields(r.value), 34) == Some(Dec(n))
      && (n < TWO63 ==> IntValue(Dec(n)) == Some(n))
  {
    hide FormatMessage, Fields, Lookup, Reply, Accepted, Complete, Dec, Value, IntValue, BodyOf, MessageFields;
    ReplyIffAccepted(c, n);
    var msgType, fs := ReplyShape(c, n);
    HeaderValues(msgType, n, ENGINE, Get(Fields(c.data), 49), c.ts, fs);
    FormatThenParse(msgType, n, ENGINE, Get(Fields(c.data), 49), c.ts, fs);
    DecValue(n);
    if n < TWO63 { IntValueDigits(Dec(n)); }
  }

  /** On every connection the replies are numbered 1, 2, 3, ... */
  lemma SequenceNumbers(cs: seq<Chunk>, k: nat)
    requires forall i | 0 <= i < |cs| :: Free(cs[i].ts, SOH)
    requires k < |Replies(cs)|
    ensures Lookup(Fields(Replies(cs)[k]), 34) == Some(Dec(k + 1))
    ensures k + 1 < TWO63 ==> IntValue(Dec(k + 1)) == Some(k + 1)
  {
    hide Fields, Lookup, Reply, Replies, Accepted, Dec, IntValue, OnlyAccepted;
    NumberedWithoutGaps(cs);
    AcceptedFree(cs);
    ReplyNumber(OnlyAccepted(cs)[k], k + 1);
  }

  /** On every connection each reply has the right body length and checksum. */
  lemma RepliesWellFramed(cs: seq<Chunk>, k: nat)
    requires forall i | 0 <= i < |cs| :: Free(cs[i].ts, SOH)
    requires k < |Replies(cs)| && |Replies(cs)[k]| < TWO63
    ensures exists end: nat :: WellFramed(Replies(cs)[k], end)
  {
    hide Fields, Lookup, Reply, Replies, Accepted, OnlyAccepted, FormatMessage, BodyOf, WellFramed, Get, AllCanonical;
    NumberedWithoutGaps(cs);
    AcceptedFree(cs);
    var c := OnlyAccepted(cs)[k];
    var msgType, fs := ReplyShape(c, k + 1);
    BodyLengthAndCheckSum(msgType, k + 1, ENGINE, Get(Fields(c.data), 49), c.ts, fs);
  }

  lemma {:induction false} AcceptedFree(cs: seq<Chunk>)
    requires forall i | 0 <= i < |cs| :: Free(cs[i].ts, SOH)
    ensures forall i | 0 <= i < |OnlyAccepted(cs)| :: Free(OnlyAccepted(cs)[i].ts, SOH) && Accepted(OnlyAccepted(cs)[i])
  {
    hide Accepted, Free;
    if cs != [] {
      AcceptedFree(cs[..|cs| - 1]);
    }
  }

  /** The execution report for a new order repeats the order's terms and goes back to its sender. */
  lemma ReportEchoes(c: Chunk, n: nat)
    requires Free(c.ts, SOH) && Accepted(c) && Get(Fields(c.data), 35) == NEW_ORDER
    ensures
      var r := Reply(c, n);
      r != None &&
      var inp, out := Fields(c.data), Fields(r.value);
      && Get(out, 35) == EXECUTION_REPORT && Get(out, 49) == ENGINE && Get(out, 56) == Get(inp, 49)
      && Get(out, 11) == Get(inp, 11) && Get(out, 55) == Get(inp, 55) && Get(out, 54) == Get(inp, 54)
      && Get(out, 38) == Get(inp, 38) && Get(out, 44) == Get(inp, 44)
  {
    hide FormatMessage, Fields, Reply, Accepted, Get, Lookup, BodyOf, ReportFields, Dec, AllCanonical, HeaderFree;
    ReplyIffAccepted(c, n);
    var msgType, fs := ReplyShape(c, n);
    var out := Fields(Reply(c, n).value);
    var sender := Get(Fields(c.data), 49);
    HeaderValues(msgType, n, ENGINE, sender, c.ts, fs);
    GetLookup(out, 35);
    GetLookup(out, 49);
    GetLookup(out, 56);
    EchoedValues(msgType, n, sender, c, fs, out);
  }

  lemma GetLookup(fs: seq<Field>, tag: int)
    ensures Lookup(fs, tag) != None ==> Get(fs, tag) == Lookup(fs, tag).value
  {
  }

  lemma EchoedValues(msgType: seq<byte>, n: nat, sender: seq<byte>, c: Chunk, fs: seq<Field>, out: seq<Field>)
    requires AllCanonical(fs) && HeaderFree(msgType, ENGINE, sender, c.ts)
    requires
      var inp := Fields(c.data);
      fs == ReportFields(Get(inp, 11), Get(inp, 55), Get(inp, 54), Get(inp, 38), Get(inp, 44), c.nano)
    requires out == Fields(FormatMessage(msgType, n, ENGINE, sender, c.ts, BodyOf(fs)))
    ensures
      var inp := Fields(c.data);
      && Get(out, 11) == Get(inp, 11) && Get(out, 55) == Get(inp, 55) && Get(out, 54) == Get(inp, 54)
      && Get(out, 38) == Get(inp, 38) && Get(out, 44) == Get(inp, 44)
  {
    hide FormatMessage, Fields, Lookup, BodyOf, MessageFields, Bytes, DecInt, AllCanonical, HeaderFree, Get;
    FormatThenParse(msgType, n, ENGINE, sender, c.ts, fs);
    forall k | k in {1, 5, 6, 7, 8} ensures Get(out, fs[k].tag) == fs[k].value {
      BodyValue(msgType, n, sender, c.ts, fs, k);
      GetLookup(out, fs[k].tag);
    }
    assert Get(out, fs[1].tag) == fs[1].value && Get(out, fs[5].tag) == fs[5].value && Get(out, fs[6].tag) == fs[6].value
        && Get(out, fs[7].tag) == fs[7].value && Get(out, fs[8].tag) == fs[8].value;
  }

  lemma BodyValue(msgType: seq<byte>, n: nat, sender: seq<byte>, ts: seq<byte>, fs: seq<Field>, k: nat)
    requires AllCanonical(fs) && k < |fs| && fs[k].tag !in HEADER_TAGS
    requires forall i | 0 <= i < k :: fs[i].tag != fs[k].tag
    ensures Lookup(MessageFields(msgType, n, ENGINE, sender, ts, fs), fs[k].tag) == Some(fs[k].value)
  {
    hide MessageFields, Lookup, FormatBody, BodyOf, FormatHeader, CheckField;
    LookupInMessage(msgType, n, ENGINE, sender, ts, fs, fs[k].tag);
    FirstMatch(fs, k);
  }
}
