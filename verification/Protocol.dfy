/** One control datagram of main.c: receive, ACK or NACK, handle, respond, clean up. */
module Protocol {
  import opened Basics
  import opened Codec
  import opened PacketWrapper

  const BUFFER_LEN := 1536

  /** A callback's return code and the message it leaves in the (empty) response wrapper. */
  datatype Outcome = Outcome(ret: int, resp: Message)

  /** What one call of control_receive_message meets: the result of recvfrom (None on failure) and
      what the API's verify and handle callbacks do (None for a NULL callback). */
  datatype Input = Input(received: Option<seq<byte>>, verify: Option<Outcome>, handle: Option<Outcome>)

  const ACK_OK: byte := 0x30
  const NACK_PARSE: byte := 0x31
  const NACK_VERIFY: byte := 1

  function Ascii(s: string): (r: seq<byte>)
    ensures |r| == |s|
  {
    seq(|s|, i requires 0 <= i < |s| => s[i] as int % 0x100)
  }

  const PARSE_FAILED := "Unable to parse the packet"
  const VERIFY_FAILED := "Unable to find the API handler"
  const RECEIVED := "ACK: Command received"

  predicate Fits(m: Message) {
    |m.tlvs| <= TLV_NUM && HDR_LEN + PayloadSize(m.tlvs) <= BUFFER_LEN
  }

  /** What the code relies on without checking. */
  predicate Acceptable(input: Input) {
    && (input.received.Some? ==>
         var b := input.received.value;
         && |b| <= BUFFER_LEN
         && (|b| >= HDR_LEN ==> InBounds(b[HDR_LEN..]) && Slotted(b[HDR_LEN..]) <= TLV_NUM))
    && (input.verify.Some? ==> Fits(input.verify.value.resp))
    && (input.handle.Some? ==> Fits(input.handle.value.resp))
  }

  datatype Reply = Positive(msg: Message) | Negative(msg: Message) | Response(msg: Message)

  /** The datagrams sent in answer. */
  function Replies(tables: Tables, input: Input): seq<Reply>
    requires Acceptable(input)
  {
    match input.received
    case None => []
    case Some(b) =>
      var p := Parse(tables, b);
      if p.ret != 0 then [Negative(Ack(p.msg.hdr.sn, NACK_PARSE, Ascii(PARSE_FAILED)))]
      else if input.verify.Some? && input.verify.value.ret != 0 then
        [Negative(Ack(p.msg.hdr.sn, NACK_VERIFY, Ascii(VERIFY_FAILED)))]
      else
        [Positive(Ack(p.msg.hdr.sn, ACK_OK, Ascii(RECEIVED)))] +
        (if input.handle.Some? && input.handle.value.ret == 0 then [Response(input.handle.value.resp)] else [])
  }

  function EncodeAll(rs: seq<Reply>): (r: seq<seq<byte>>)
    ensures |r| == |rs|
  {
    seq(|rs|, i requires 0 <= i < |rs| => Encode(rs[i].msg))
  }

  /** The one case in which TLV blocks are lost: a verify callback left TLVs in the response, and
      fill_wrapper_ack overwrote their slots. */
  predicate VerifyLeaks(tables: Tables, input: Input)
    requires Acceptable(input)
  {
    && input.received.Some? && Parse(tables, input.received.value).ret == 0
    && input.verify.Some? && input.verify.value.resp.tlvs != []
  }

  lemma ShortAckFits(sn: u16, status: byte, reason: Payload)
    requires |reason| <= 64
    ensures Fits(Ack(sn, status, reason))
  {
    var ts := Ack(sn, status, reason).tlvs;
    assert ts[1..] == [Tlv(TLV_MESSAGE, reason)] && ts[1..][1..] == [];
    assert PayloadSize(ts[1..]) == 3 + |reason| + PayloadSize(ts[1..][1..]);
  }

  /** Fills, prints and sends an ACK or NACK. */
  method SendAck(heap: Heap, resp: Wrapper, buffer: array<byte>, sn: u16, status: byte, reason: Payload)
      returns (datagram: seq<byte>)
    requires resp.Valid() && heap.Valid() && resp.Owns(heap)
    requires buffer.Length == BUFFER_LEN && |reason| <= 64
    modifies heap, resp, resp.tlv, buffer
    ensures heap.Valid() && resp.Valid() && resp.Owns(heap)
    ensures datagram == Encode(Ack(sn, status, reason))
    ensures resp.Foreign(heap) ==
            old(resp.Foreign(heap)) + SlotBlocks(old(resp.tlv[0])) + SlotBlocks(old(resp.tlv[1]))
  {
    resp.FillAck(heap, sn, status, reason);
    ShortAckFits(sn, status, reason);
    var len := resp.Assemble(buffer, Ack(sn, status, reason));
    datagram := buffer[..len];
  }

  /** The verify callback and the ACK or NACK behind it.  A positive ACK is freed, a NACK is left
      to the clean-up. */
  method Acknowledge(heap: Heap, resp: Wrapper, buffer: array<byte>, sn: u16, verify: Option<Outcome>)
      returns (datagram: seq<byte>, ok: bool)
    requires resp.Zeroed() && heap.Valid() && buffer.Length == BUFFER_LEN
    requires verify.Some? ==> Fits(verify.value.resp)
    modifies heap, resp, resp.tlv, buffer
    ensures heap.Valid() && resp.Valid() && resp.Owns(heap) && (ok ==> resp.Zeroed())
    ensures ok <==> !(verify.Some? && verify.value.ret != 0)
    ensures datagram == Encode(if ok then Ack(sn, ACK_OK, Ascii(RECEIVED)) else Ack(sn, NACK_VERIFY, Ascii(VERIFY_FAILED)))
    ensures resp.Foreign(heap) >= old(heap.live)
    ensures resp.Foreign(heap) == old(heap.live) <==> !(verify.Some? && verify.value.resp.tlvs != [])
  {
    BlocksNone(resp.tlv[..]);
    ok := true;
    if verify.Some? {
      resp.Fill(heap, verify.value.resp);
      ok := verify.value.ret == 0;
    }
    SlotsOwned(resp, heap);
    if ok {
      datagram := SendAck(heap, resp, buffer, sn, ACK_OK, Ascii(RECEIVED));
      resp.Free(heap);
      BlocksNone(resp.tlv[..]);
    } else {
      datagram := SendAck(heap, resp, buffer, sn, NACK_VERIFY, Ascii(VERIFY_FAILED));
    }
  }

  /** The handle callback and the response behind it. */
  method Respond(heap: Heap, resp: Wrapper, buffer: array<byte>, handle: Option<Outcome>)
      returns (datagrams: seq<seq<byte>>)
    requires resp.Zeroed() && heap.Valid() && buffer.Length == BUFFER_LEN
    requires handle.Some? ==> Fits(handle.value.resp)
    modifies heap, resp, resp.tlv, buffer
    ensures heap.Valid() && resp.Valid() && resp.Owns(heap)
    ensures datagrams == if handle.Some? && handle.value.ret == 0 then [Encode(handle.value.resp)] else []
    ensures resp.Foreign(heap) == old(heap.live)
  {
    BlocksNone(resp.tlv[..]);
    datagrams := [];
    if handle.Some? {
      resp.Fill(heap, handle.value.resp);
      if handle.value.ret == 0 {
        var len := resp.Assemble(buffer, handle.value.resp);
        datagrams := [buffer[..len]];
      }
    }
  }

  /** control_receive_message, from the parsed request on. */
  method Answer(heap: Heap, tables: Tables, req: Wrapper, resp: Wrapper, buffer: array<byte>, input: Input)
      returns (sent: seq<seq<byte>>)
    requires Acceptable(input) && input.received.Some? && Parse(tables, input.received.value).ret == 0
    requires req.Carries(Parse(tables, input.received.value).msg)
    requires resp.Zeroed() && heap.Valid() && buffer.Length == BUFFER_LEN
    requires req != resp && req.tlv != resp.tlv
    modifies heap, resp, resp.tlv, buffer
    ensures heap.Valid() && resp.Valid() && resp.Owns(heap)
    ensures sent == EncodeAll(Replies(tables, input))
    ensures resp.Foreign(heap) >= old(heap.live)
    ensures resp.Foreign(heap) == old(heap.live) <==> !VerifyLeaks(tables, input)
  {
    var api := GetApiById(tables, req.hdr.typ);
    if api.None? {
      assert false;  // parse_packet has already looked the type up
    }
    var ack, ok := Acknowledge(heap, resp, buffer, req.hdr.sn, input.verify);
    sent := [ack];
    if ok {
      BlocksNone(resp.tlv[..]);
      var more := Respond(heap, resp, buffer, input.handle);
      sent := sent + more;
    }
  }

  /** Both outcomes of parse_packet. */
  method AnswerParsed(
      heap: Heap, tables: Tables, req: Wrapper, resp: Wrapper, buffer: array<byte>, input: Input, parsed: int)
      returns (sent: seq<seq<byte>>)
    requires Acceptable(input) && input.received.Some? && parsed == Parse(tables, input.received.value).ret
    requires req.Carries(Parse(tables, input.received.value).msg)
    requires resp.Zeroed() && heap.Valid() && buffer.Length == BUFFER_LEN
    requires req != resp && req.tlv != resp.tlv
    modifies heap, resp, resp.tlv, buffer
    ensures heap.Valid() && resp.Valid() && resp.Owns(heap)
    ensures sent == EncodeAll(Replies(tables, input))
    ensures resp.Foreign(heap) >= old(heap.live)
    ensures resp.Foreign(heap) == old(heap.live) <==> !VerifyLeaks(tables, input)
  {
    if parsed != 0 {
      BlocksNone(resp.tlv[..]);
      var nack := SendAck(heap, resp, buffer, req.hdr.sn, NACK_PARSE, Ascii(PARSE_FAILED));
      sent := [nack];
    } else {
      sent := Answer(heap, tables, req, resp, buffer, input);
    }
  }

  lemma SlotsOwned(w: Wrapper, heap: Heap)
    requires w.Valid() && w.Owns(heap)
    ensures SlotBlocks(w.tlv[0]) + SlotBlocks(w.tlv[1]) <= heap.live
    ensures SlotBlocks(w.tlv[0]) + SlotBlocks(w.tlv[1]) !! w.Foreign(heap)
  {
    var ss := w.tlv[..];
    assert ss[1..][0] == ss[1];
  }

  /** The clean-up of control_receive_message. */
  method CleanUp(heap: Heap, req: Wrapper, resp: Wrapper)
    requires heap.Valid() && req.Valid() && resp.Valid() && req != resp && req.tlv != resp.tlv
    requires req.Owns(heap) && resp.Owns(heap) && Blocks(req.tlv[..]) <= resp.Foreign(heap)
    modifies heap, req, req.tlv, resp, resp.tlv
    ensures heap.Valid() && heap.live == old(resp.Foreign(heap) - Blocks(req.tlv[..]))
  {
    ghost var mine, theirs := resp.tlv[..], Blocks(req.tlv[..]);
    req.Free(heap);
    assert resp.tlv[..] == mine && Blocks(mine) !! theirs;
    resp.Free(heap);
  }

  /** control_receive_message: the datagrams are exactly the prescribed ones, and every block
      allocated on the way is freed once, unless a verify callback filled the response. */
  method ControlReceiveMessage(heap: Heap, tables: Tables, input: Input) returns (sent: seq<seq<byte>>)
    requires heap.Valid() && Acceptable(input)
    modifies heap
    ensures heap.Valid()
    ensures sent == EncodeAll(Replies(tables, input))
    ensures heap.live >= old(heap.live)
    ensures heap.live == old(heap.live) <==> !VerifyLeaks(tables, input)
  {
    sent := [];
    if input.received.None? {
      return;
    }
    var req := new Wrapper();
    var resp := new Wrapper();
    var buffer := new byte[BUFFER_LEN](_ => 0);
    var ret := req.Parse(heap, tables, input.received.value);
    ghost var held, slots := heap.live, req.tlv[..];
    sent := AnswerParsed(heap, tables, req, resp, buffer, input, ret);
    assert req.tlv[..] == slots;
    ghost var foreign := resp.Foreign(heap);
    CleanUp(heap, req, resp);
    Balance(old(heap.live), Blocks(slots), foreign);
  }

  /** What is left over beyond the request's blocks was lost. */
  lemma Balance(before: set<nat>, blocks: set<nat>, foreign: set<nat>)
    requires before !! blocks && before + blocks <= foreign
    ensures foreign - blocks >= before
    ensures foreign - blocks == before <==> foreign == before + blocks
  {
  }

  /** The loop's view: one call per ready datagram, over one heap.  Nothing is ever lost if and
      only if no request of the run lets a verify callback fill the response. */
  method Serve(heap: Heap, tables: Tables, inputs: seq<Input>) returns (sent: seq<seq<byte>>)
    requires heap.Valid() && forall i :: 0 <= i < |inputs| ==> Acceptable(inputs[i])
    modifies heap
    ensures heap.Valid() && heap.live >= old(heap.live)
    ensures heap.live == old(heap.live) <==> Lossless(tables, inputs)
    ensures sent == EncodeAll(Conversation(tables, inputs))
  {
    sent := [];
    for i := 0 to |inputs|
      invariant heap.Valid() && heap.live >= old(heap.live)
      invariant heap.live == old(heap.live) <==> Lossless(tables, inputs[..i])
      invariant sent == EncodeAll(Conversation(tables, inputs[..i]))
    {
      var out := ControlReceiveMessage(heap, tables, inputs[i]);
      OneMoreInput(tables, inputs, i);
      sent := sent + out;
    }
    assert inputs[..|inputs|] == inputs;
  }

  /** Everything sent over a run. */
  function Conversation(tables: Tables, inputs: seq<Input>): seq<Reply>
    requires forall i :: 0 <= i < |inputs| ==> Acceptable(inputs[i])
  {
    if inputs == [] then []
    else Conversation(tables, inputs[..|inputs| - 1]) + Replies(tables, inputs[|inputs| - 1])
  }

  ghost predicate Lossless(tables: Tables, inputs: seq<Input>)
    requires forall i :: 0 <= i < |inputs| ==> Acceptable(inputs[i])
  {
    forall i :: 0 <= i < |inputs| ==> !VerifyLeaks(tables, inputs[i])
  }

  /** While no API has a verify callback, no run loses a block. */
  lemma WithoutVerifyLossless(tables: Tables, inputs: seq<Input>)
    requires forall i :: 0 <= i < |inputs| ==> Acceptable(inputs[i]) && inputs[i].verify.None?
    ensures Lossless(tables, inputs)
  {
  }

  lemma OneMoreInput(tables: Tables, inputs: seq<Input>, i: nat)
    requires i < |inputs| && forall k :: 0 <= k < |inputs| ==> Acceptable(inputs[k])
    ensures EncodeAll(Conversation(tables, inputs[..i + 1])) ==
            EncodeAll(Conversation(tables, inputs[..i])) + EncodeAll(Replies(tables, inputs[i]))
    ensures Lossless(tables, inputs[..i + 1]) <==> Lossless(tables, inputs[..i]) && !VerifyLeaks(tables, inputs[i])
  {
    assert inputs[..i + 1][..i] == inputs[..i];
    assert inputs[..i + 1] == inputs[..i] + [inputs[i]];
  }

  function Count(inputs: seq<Input>): nat {
    if inputs == [] then 0
    else Count(inputs[..|inputs| - 1]) + if inputs[|inputs| - 1].received.Some? then 1 else 0
  }

  function Acks(rs: seq<Reply>): nat {
    if rs == [] then 0 else (if rs[0].Response? then 0 else 1) + Acks(rs[1..])
  }

  ghost predicate ResponsesFollowAcks(rs: seq<Reply>) {
    forall j :: 0 <= j < |rs| && rs[j].Response? ==> j > 0 && rs[j - 1].Positive?
  }

  lemma {:induction false} AcksConcat(a: seq<Reply>, b: seq<Reply>)
    ensures Acks(a + b) == Acks(a) + Acks(b)
  {
    if a == [] {
      assert a + b == b;
    } else {
      assert (a + b)[1..] == a[1..] + b;
      AcksConcat(a[1..], b);
    }
  }

  lemma FollowConcat(a: seq<Reply>, b: seq<Reply>)
    requires ResponsesFollowAcks(a) && ResponsesFollowAcks(b)
    ensures ResponsesFollowAcks(a + b)
  {
  }

  /** Over any run, every received datagram is answered by exactly one ACK or NACK, and every
      response comes directly behind a positive ACK. */
  lemma {:induction false} ConversationGrammar(tables: Tables, inputs: seq<Input>)
    requires forall i :: 0 <= i < |inputs| ==> Acceptable(inputs[i])
    ensures Acks(Conversation(tables, inputs)) == Count(inputs)
    ensures ResponsesFollowAcks(Conversation(tables, inputs))
  {
    if inputs != [] {
      var front, last := inputs[..|inputs| - 1], inputs[|inputs| - 1];
      ConversationGrammar(tables, front);
      RepliesShape(tables, last);
      AcksConcat(Conversation(tables, front), Replies(tables, last));
      FollowConcat(Conversation(tables, front), Replies(tables, last));
    }
  }

  /** One datagram yields nothing, [NACK], [ACK] or [ACK, RESPONSE]. */
  lemma RepliesShape(tables: Tables, input: Input)
    requires Acceptable(input)
    ensures var r := Replies(tables, input);
            && (|r| == 0 <==> input.received.None?) && |r| <= 2
            && (|r| >= 1 ==> !r[0].Response?)
            && (|r| == 2 ==> r[0].Positive? && r[1].Response?)
            && Acks(r) == (if input.received.Some? then 1 else 0)
            && ResponsesFollowAcks(r)
  {
    var r := Replies(tables, input);
    if |r| == 1 {
      assert r[1..] == [];
    } else if |r| == 2 {
      assert r[1..][1..] == [] && r[1..][0] == r[1];
      assert Acks(r[1..]) == 0 + Acks(r[1..][1..]);
    }
  }

  /** The sequence number of a datagram, read off its bytes; 0 if there is no whole header. */
  function SequenceNumber(b: seq<byte>): int {
    if |b| < HDR_LEN then 0
    else
      var hi: int, lo: int := b[3], b[4];
      0x100 * hi + lo
  }

  lemma ParseEncoded(tables: Tables, m: Message)
    ensures |Encode(m)| >= HDR_LEN && InBounds(Encode(m)[HDR_LEN..])
    ensures Parse(tables, Encode(m)) == Parsed(if Known(tables, m) then 0 else -1, m)
  {
    assert Encode(m) + [] == Encode(m);
    ParseUndoesEncode(tables, m, []);
  }

  predicate Spells(b: seq<byte>, text: string) {
    |b| == |text| && forall i :: 0 <= i < |b| ==> b[i] == text[i] as int
  }

  lemma ReceivedSpells()
    ensures Spells(Ascii(RECEIVED), "ACK: Command received")
  {
    assert forall i :: 0 <= i < |RECEIVED| ==> RECEIVED[i] < 128 as char;
  }

  lemma ParseFailedSpells()
    ensures Spells(Ascii(PARSE_FAILED), "Unable to parse the packet")
  {
    assert forall i :: 0 <= i < |PARSE_FAILED| ==> PARSE_FAILED[i] < 128 as char;
  }

  lemma VerifyFailedSpells()
    ensures Spells(Ascii(VERIFY_FAILED), "Unable to find the API handler")
  {
    assert forall i :: 0 <= i < |VERIFY_FAILED| ==> VERIFY_FAILED[i] < 128 as char;
  }

  /** An acknowledgement of request `sn` that carries this status and text. */
  predicate Acknowledges(m: Message, sn: int, status: int, text: string) {
    && m.hdr.typ == API_CMD_ACK && m.hdr.sn == sn
    && |m.tlvs| == 2 && m.tlvs[0].id == TLV_STATUS && m.tlvs[1].id == TLV_MESSAGE
    && m.tlvs[0].value == [status] && Spells(m.tlvs[1].value, text)
  }

  /** The acknowledgement that answers a datagram: status 0x31 if it does not parse, 1 if it is not
      verified, 0x30 otherwise, with a text that says so. */
  predicate Answers(tables: Tables, input: Input, m: Message)
    requires Acceptable(input) && input.received.Some?
  {
    var sn := SequenceNumber(input.received.value);
    if Parse(tables, input.received.value).ret != 0 then Acknowledges(m, sn, 0x31, "Unable to parse the packet")
    else if input.verify.Some? && input.verify.value.ret != 0 then
      Acknowledges(m, sn, 1, "Unable to find the API handler")
    else Acknowledges(m, sn, 0x30, "ACK: Command received")
  }

  lemma FirstAnswer(tables: Tables, input: Input)
    requires Acceptable(input) && input.received.Some?
    requires API_CMD_ACK in tables.apis && TLV_STATUS in tables.tlvs && TLV_MESSAGE in tables.tlvs
    ensures var m := Replies(tables, input)[0].msg; Answers(tables, input, m) && Known(tables, m)
  {
    ReceivedSpells();
    ParseFailedSpells();
    VerifyFailedSpells();
  }

  lemma Readable(tables: Tables, input: Input, m: Message)
    requires Acceptable(input) && input.received.Some? && Answers(tables, input, m) && Known(tables, m)
    ensures var b := Encode(m);
            && |b| >= HDR_LEN && InBounds(b[HDR_LEN..]) && Parse(tables, b).ret == 0
            && Answers(tables, input, Parse(tables, b).msg)
  {
    ParseEncoded(tables, m);
    assert Parse(tables, Encode(m)).msg == m;
  }

  lemma SecondAnswer(tables: Tables, input: Input)
    requires Acceptable(input) && input.received.Some?
    ensures var out := EncodeAll(Replies(tables, input));
            && |out| > 0
            && (|out| == 2 <==> Parse(tables, input.received.value).ret == 0 &&
                                !(input.verify.Some? && input.verify.value.ret != 0) &&
                                input.handle.Some? && input.handle.value.ret == 0)
            && (|out| == 2 ==> out[1] == Encode(input.handle.value.resp))
  {
  }

  /** The tool's view: the first answer is accepted by the same parser and decodes to an ACK with the
      request's sequence number.  Its status is 0x31 if the request does not parse, 1 if it is not
      verified and 0x30 otherwise, with a text that says so; a response follows exactly when, besides,
      the handler succeeded. */
  lemma AnswerOnTheWire(tables: Tables, input: Input)
    requires Acceptable(input) && input.received.Some?
    requires API_CMD_ACK in tables.apis && TLV_STATUS in tables.tlvs && TLV_MESSAGE in tables.tlvs
    ensures var out := EncodeAll(Replies(tables, input));
            var accepted := Parse(tables, input.received.value).ret == 0 &&
                            !(input.verify.Some? && input.verify.value.ret != 0);
            && |out| > 0 && |out[0]| >= HDR_LEN && InBounds(out[0][HDR_LEN..])
            && Parse(tables, out[0]).ret == 0 && Answers(tables, input, Parse(tables, out[0]).msg)
            && (|out| == 2 <==> accepted && input.handle.Some? && input.handle.value.ret == 0)
            && (|out| == 2 ==> out[1] == Encode(input.handle.value.resp))
  {
    SecondAnswer(tables, input);
    var m := Replies(tables, input)[0].msg;
    assert Answers(tables, input, m) && Known(tables, m) by {
      FirstAnswer(tables, input);
    }
    assert EncodeAll(Replies(tables, input))[0] == Encode(m);
    Readable(tables, input, m);
  }
}
