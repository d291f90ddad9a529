/** The frame decoder `obex_dump`: it reads the opcode and the 16-bit packet
    length, notes a partial segment, classifies the frame as a request or a
    response, records the correlation state `last_opcode`/`last_status`,
    decodes the fixed fields of Connect and SetPath, and hands the rest of the
    frame to the header parser. */
module ObexDump {
  import opened ObexBytes
  import opened ObexNames
  import opened ObexFrame
  import opened ObexHeaders

  /** The correlation state kept from one frame to the next: the opcode of
      the last request and the status byte of the last frame. */
  datatype State = State(lastOpcode: byte, lastStatus: byte)

  /** Both fields start at zero, so a response seen before any request is
      labelled with Connect. */
  const Initial: State := State(0x00, 0x00)

  /** `(opcode & 0x70) == 0`: opcodes 0x00-0x0f and 0x80-0x8f are requests.
      The Abort opcode 0x7f (0xff when final) has those bits set, so it is
      classified as a response. */
  predicate IsRequest(opcode: byte)
  {
    Mid3(opcode) == 0x00
  }

  /** The summary line of a frame. A request names its own opcode; a response
      names the last request (`request`), printed by `OpcodeText`, and shows
      its status as a high and a low nibble. `final` is the direction marker,
      'f' when set and 'c' otherwise. */
  datatype Summary =
    | Command(opcode: byte, final: bool, length: nat)
    | Response(request: byte, final: bool, major: nat, minor: nat, length: nat)

  /** The fixed fields that follow the 3-byte prefix for the effective
      opcode, or a note that the frame is too short to hold them. */
  datatype Fixed =
    | NoFields
    | ConnectFields(major: nat, minor: nat, flags: byte, mtu: nat)
    | SetPathFields(flags: byte, constants: byte)
    | FieldsCut(needed: nat, available: nat)

  /** The verbose status line: the status nibbles and the status byte, whose
      name is `OpcodeText(status)`. */
  datatype StatusLine = StatusLine(major: nat, minor: nat, status: byte)

  /** What one call reports: a frame too short for the opcode and length, or
      the decoded frame with its optional partial-segment note (carrying the
      byte count it prints), summary, fixed fields, optional status line,
      header records and the bytes left for the final hex dump. */
  datatype Report =
    | TooShort(available: nat)
    | Pdu(partial: Option<nat>, summary: Summary, fixed: Fixed, status: Option<StatusLine>,
          headers: seq<HeaderRecord>, leftover: seq<byte>)

  /** The report, the new correlation state and the final cursor of a call. */
  datatype Outcome = Outcome(report: Report, state: State, ptr: nat)

  /** The number of fixed-field bytes the effective opcode calls for. */
  function FixedSize(effective: byte): (n: nat)
    ensures n == 4 <==> Low7(effective) == 0x00
    ensures n == 2 <==> Low7(effective) == 0x05
    ensures n == 0 || n == 2 || n == 4
  {
    if Low7(effective) == 0x00 then 4 else if Low7(effective) == 0x05 then 2 else 0
  }

  /** The fixed fields found at offset `q` for the effective opcode. */
  function FixedFields(data: seq<byte>, q: nat, effective: byte): (f: Fixed)
    requires q <= |data|
    ensures f.FieldsCut? <==> |data| - q < FixedSize(effective)
    ensures f.ConnectFields? <==> Low7(effective) == 0x00 && FixedSize(effective) <= |data| - q
    ensures f.SetPathFields? <==> Low7(effective) == 0x05 && FixedSize(effective) <= |data| - q
  {
    if |data| - q < FixedSize(effective) then FieldsCut(FixedSize(effective), |data| - q)
    else if Low7(effective) == 0x00 then
      ConnectFields(HighNibble(data[q]), LowNibble(data[q]), data[q + 1], Be16(data[q + 2], data[q + 3]))
    else if Low7(effective) == 0x05 then SetPathFields(data[q], data[q + 1])
    else NoFields
  }

  /** The partial-segment note: the bytes left after the prefix fall short
      of the declared length less the prefix, compared as signed integers. */
  function PartialNote(remaining: nat, length: nat): (n: Option<nat>)
    ensures n.Some? <==> remaining < length - 3
    ensures n.Some? ==> n.value == remaining + 3
  {
    if remaining < length - 3 then Some(remaining + 3) else None
  }

  /** The summary line of a frame with this opcode and length. */
  function SummaryOf(opcode: byte, length: nat, s: State): (m: Summary)
    ensures m.Command? <==> IsRequest(opcode)
    ensures m.final == Bit7(opcode) && m.length == length
    ensures m.Command? ==> m.opcode == opcode
    ensures m.Response? ==> m.request == s.lastOpcode
    ensures m.Response? ==> m.major * 0x10 + m.minor == Low7(opcode)
  {
    if IsRequest(opcode) then Command(opcode, Bit7(opcode), length)
    else Response(s.lastOpcode, Bit7(opcode), HighNibble(Low7(opcode)), LowNibble(Low7(opcode)), length)
  }

  /** The correlation state after a frame with this opcode. */
  function NextState(opcode: byte, s: State): (t: State)
    ensures t.lastStatus == Low7(opcode)
    ensures IsRequest(opcode) ==> t.lastOpcode == opcode
    ensures !IsRequest(opcode) ==> t.lastOpcode == s.lastOpcode
  {
    State(if IsRequest(opcode) then opcode else s.lastOpcode, Low7(opcode))
  }

  /** The verbose status line for a status byte. */
  function StatusLineOf(status: byte, verbose: bool): (l: Option<StatusLine>)
    ensures l.Some? <==> Mid3(status) != 0x00 && verbose
    ensures l.Some? ==> l.value.status == status && l.value.major * 0x10 + l.value.minor == status
  {
    if Mid3(status) != 0x00 && verbose then Some(StatusLine(HighNibble(status), LowNibble(status), status)) else None
  }

  /** One call of `obex_dump` on the frame starting at offset `p`, from
      correlation state `s`. `rule` sizes Unicode headers: `AsWritten` is the
      program itself, `Corrected` the intended header arithmetic. */
  function DumpFrame(data: seq<byte>, p: nat, s: State, verbose: bool, rule: UnicodeRule): (out: Outcome)
    requires p <= |data|
    ensures p <= out.ptr <= |data|
  {
    if |data| - p < 3 then Outcome(TooShort(|data| - p), s, p)
    else
      var opcode, length := data[p], Be16(data[p + 1], data[p + 2]);
      var t := NextState(opcode, s);
      var fixed := FixedFields(data, p + 3, t.lastOpcode);
      var partial, summary := PartialNote(|data| - p - 3, length), SummaryOf(opcode, length, s);
      var line := StatusLineOf(Low7(opcode), verbose);
      if fixed.FieldsCut? then
        Outcome(Pdu(partial, summary, fixed, line, [], data[p + 3..]), t, p + 3)
      else
        var h := Headers(data, p + 3 + FixedSize(t.lastOpcode), rule);
        Outcome(Pdu(partial, summary, fixed, line, h.trace, data[h.ptr..]), t, h.ptr)
  }

  /** DumpFrame on a frame too short for its fixed fields. */
  lemma DumpFrameCut(data: seq<byte>, p: nat, s: State, verbose: bool, rule: UnicodeRule)
    requires p + 3 <= |data|
    requires FixedFields(data, p + 3, NextState(data[p], s).lastOpcode).FieldsCut?
    ensures var length := Be16(data[p + 1], data[p + 2]);
            DumpFrame(data, p, s, verbose, rule)
            == Outcome(Pdu(PartialNote(|data| - p - 3, length), SummaryOf(data[p], length, s),
                           FixedFields(data, p + 3, NextState(data[p], s).lastOpcode),
                           StatusLineOf(Low7(data[p]), verbose), [], data[p + 3..]),
                       NextState(data[p], s), p + 3)
  {
  }

  /** DumpFrame on a frame whose fixed fields are all present. */
  lemma DumpFrameDecoded(data: seq<byte>, p: nat, s: State, verbose: bool, rule: UnicodeRule, q: nat, h: Parsed)
    requires p + 3 <= |data|
    requires !FixedFields(data, p + 3, NextState(data[p], s).lastOpcode).FieldsCut?
    requires q == p + 3 + FixedSize(NextState(data[p], s).lastOpcode) <= |data|
    requires h == Headers(data, q, rule)
    ensures var length := Be16(data[p + 1], data[p + 2]);
            DumpFrame(data, p, s, verbose, rule)
            == Outcome(Pdu(PartialNote(|data| - p - 3, length), SummaryOf(data[p], length, s),
                           FixedFields(data, p + 3, NextState(data[p], s).lastOpcode),
                           StatusLineOf(Low7(data[p]), verbose), h.trace, data[h.ptr..]),
                       NextState(data[p], s), h.ptr)
  {
  }

  /** The `switch (opcode & 0x7f)` of `obex_dump`: reads the version,
      flags and maximum packet length of a Connect, or the flags and
      constants of a SetPath, and reads nothing for any other opcode or when
      the frame is too short for the fields. */
  method DecodeFixed(frm: Frame, effective: byte) returns (fixed: Fixed)
    requires frm.Valid()
    modifies frm
    ensures frm.Valid()
    ensures fixed == FixedFields(frm.data, old(frm.ptr), effective)
    ensures frm.ptr == if fixed.FieldsCut? then old(frm.ptr) else old(frm.ptr) + FixedSize(effective)
  {
    if Low7(effective) == 0x00 {
      if frm.len < 4 {
        fixed := FieldsCut(4, frm.len);
        return;
      }
      var version := frm.GetU8();
      var flags := frm.GetU8();
      var mtu := frm.GetU16();
      fixed := ConnectFields(HighNibble(version), LowNibble(version), flags, mtu);
    } else if Low7(effective) == 0x05 {
      if frm.len < 2 {
        fixed := FieldsCut(2, frm.len);
        return;
      }
      var flags := frm.GetU8();
      var constants := frm.GetU8();
      fixed := SetPathFields(flags, constants);
    } else {
      fixed := NoFields;
    }
  }

  /** The decoder with its correlation state, the static variables
      `last_opcode` and `last_status`. */
  class Decoder {
    var lastOpcode: byte
    var lastStatus: byte

    function Current(): (s: State)
      reads this
      ensures s.lastOpcode == lastOpcode && s.lastStatus == lastStatus
    {
      State(lastOpcode, lastStatus)
    }

    constructor ()
      ensures Current() == Initial
    {
      lastOpcode, lastStatus := 0x00, 0x00;
    }

    /** `obex_dump`, with the global verbose flag as a parameter, a stop
        wherever a read would overrun the frame, and the Unicode header rule
        as a parameter (`AsWritten` for the program as it stands). */
    method Dump(frm: Frame, verbose: bool, rule: UnicodeRule) returns (report: Report)
      requires frm.Valid()
      modifies this, frm
      ensures frm.Valid()
      ensures DumpFrame(frm.data, old(frm.ptr), old(Current()), verbose, rule) == Outcome(report, Current(), frm.ptr)
    {
      if frm.len < 3 {
        report := TooShort(frm.len);
        return;
      }
      ghost var p, s := frm.ptr, Current();
      var opcode := frm.GetU8();
      var length := frm.GetU16();
      var status := Low7(opcode);
      var partial: Option<nat> := if frm.len < length as int - 3 then Some(frm.len + 3) else None;
      var summary;
      if IsRequest(opcode) {
        summary := Command(opcode, Bit7(opcode), length);
        lastOpcode := opcode;
      } else {
        summary := Response(lastOpcode, Bit7(opcode), HighNibble(status), LowNibble(status), length);
        opcode := lastOpcode;
      }
      lastStatus := status;
      ghost var t := NextState(frm.data[p], s);
      assert Current() == t && opcode == t.lastOpcode;
      assert partial == PartialNote(|frm.data| - p - 3, length);
      assert summary == SummaryOf(frm.data[p], length, s);
      var fixed := DecodeFixed(frm, opcode);
      var line := if Mid3(status) != 0x00 && verbose then Some(StatusLine(HighNibble(status), LowNibble(status), status)) else None;
      assert line == StatusLineOf(Low7(frm.data[p]), verbose);
      if fixed.FieldsCut? {
        report := Pdu(partial, summary, fixed, line, [], frm.Rest());
        DumpFrameCut(frm.data, p, s, verbose, rule);
        return;
      }
      ghost var q := frm.ptr;
      assert q == p + 3 + FixedSize(t.lastOpcode);
      var trace := ParseHeaders(frm, rule);
      report := Pdu(partial, summary, fixed, line, trace, frm.Rest());
      DumpFrameDecoded(frm.data, p, s, verbose, rule, q, Parsed(trace, frm.ptr));
    }

    /** Successive calls of `obex_dump` on this decoder, one fresh frame
        cursor per PDU: the reports in order and the correlation state after
        the last frame are those of DumpAll. */
    method DumpFrames(frames: seq<seq<byte>>, verbose: bool, rule: UnicodeRule) returns (reports: seq<Report>)
      modifies this
      ensures DumpAll(frames, old(Current()), verbose, rule) == (reports, Current())
    {
      reports := [];
      var i := 0;
      assert frames[0..] == frames;
      assert [] + DumpAll(frames, Current(), verbose, rule).0 == DumpAll(frames, Current(), verbose, rule).0;
      while i < |frames|
        invariant 0 <= i <= |frames|
        invariant var rest := DumpAll(frames[i..], Current(), verbose, rule);
                  DumpAll(frames, old(Current()), verbose, rule) == (reports + rest.0, rest.1)
        decreases |frames| - i
      {
        ghost var s := Current();
        DumpAllStep(frames, i, s, verbose, rule, reports);
        var frm := new Frame(frames[i]);
        var report := Dump(frm, verbose, rule);
        reports := reports + [report];
        i := i + 1;
      }
      assert frames[|frames|..] == [];
      assert reports + [] == reports;
    }
  }

  /** The request opcodes are exactly 0x00-0x0f and their final forms
      0x80-0x8f. */
  lemma RequestOpcodes(opcode: byte)
    ensures IsRequest(opcode) <==> opcode < 0x10 || 0x80 <= opcode < 0x90
  {
  }

  /** Abort, 0x7f or 0xff, is classified as a response. */
  lemma AbortIsResponse()
    ensures !IsRequest(0x7f) && !IsRequest(0xff)
  {
    RequestOpcodes(0x7f);
    RequestOpcodes(0xff);
  }

  /** Every frame with its 3-byte prefix is classified: a request records its
      opcode as the last request, a response keeps the last request, the
      status byte is always recorded, and the direction marker is the final
      bit. */
  lemma DumpClassifies(data: seq<byte>, p: nat, s: State, verbose: bool, rule: UnicodeRule)
    requires p + 3 <= |data|
    ensures var out, opcode := DumpFrame(data, p, s, verbose, rule), data[p];
            out.report.Pdu? &&
            (out.report.summary.Command? <==> IsRequest(opcode)) &&
            out.report.summary.final == Bit7(opcode) &&
            out.report.summary.length == Be16(data[p + 1], data[p + 2]) &&
            out.state.lastOpcode == (if IsRequest(opcode) then opcode else s.lastOpcode) &&
            out.state.lastStatus == Low7(opcode)
  {
  }

  /** A response is labelled with the last request and its fixed fields are
      decoded as that request's. */
  lemma ResponseUsesLastRequest(data: seq<byte>, p: nat, s: State, verbose: bool, rule: UnicodeRule)
    requires p + 3 <= |data| && !IsRequest(data[p])
    ensures var out := DumpFrame(data, p, s, verbose, rule);
            out.report.summary.Response? && out.report.summary.request == s.lastOpcode &&
            out.report.summary.major * 0x10 + out.report.summary.minor == Low7(data[p]) &&
            out.report.fixed == FixedFields(data, p + 3, s.lastOpcode)
  {
  }

  /** The partial-segment note appears exactly when the bytes after the
      prefix fall short of the declared length less 3, and it reports the
      bytes present counting the prefix. */
  lemma PartialNoteWhenShort(data: seq<byte>, p: nat, s: State, verbose: bool, rule: UnicodeRule)
    requires p + 3 <= |data|
    ensures var out, length := DumpFrame(data, p, s, verbose, rule), Be16(data[p + 1], data[p + 2]);
            (out.report.partial.Some? <==> |data| - p < length) &&
            (out.report.partial.Some? ==> out.report.partial.value == |data| - p)
  {
  }

  /** Clearing the final bit does not change the bits `& 0x70` tests. */
  lemma Mid3OfLow7(b: byte)
    ensures Mid3(Low7(b)) == Mid3(b)
  {
  }

  /** The verbose status line appears exactly for responses when verbose
      output is on, so never for a request. */
  lemma StatusLineOnlyForResponses(data: seq<byte>, p: nat, s: State, verbose: bool, rule: UnicodeRule)
    requires p + 3 <= |data|
    ensures var out := DumpFrame(data, p, s, verbose, rule);
            (out.report.status.Some? <==> !IsRequest(data[p]) && verbose) &&
            (out.report.status.Some? ==> out.report.status.value.status == Low7(data[p]))
  {
    Mid3OfLow7(data[p]);
  }

  /** A Connect (as the effective opcode) reads the version as two
      nibbles, the flags and the 16-bit maximum packet length: 4 bytes, after
      which the header block starts. */
  lemma ConnectFieldsRead(data: seq<byte>, p: nat, s: State, verbose: bool, rule: UnicodeRule)
    requires p + 7 <= |data| && Low7(NextState(data[p], s).lastOpcode) == 0x00
    ensures var out := DumpFrame(data, p, s, verbose, rule);
            out.report.Pdu? &&
            out.report.fixed == ConnectFields(HighNibble(data[p + 3]), LowNibble(data[p + 3]), data[p + 4], Be16(data[p + 5], data[p + 6])) &&
            out.report.headers == Headers(data, p + 7, rule).trace
  {
  }

  /** A SetPath reads the flags and the constants: 2 bytes, after which the
      header block starts. */
  lemma SetPathFieldsRead(data: seq<byte>, p: nat, s: State, verbose: bool, rule: UnicodeRule)
    requires p + 5 <= |data| && Low7(NextState(data[p], s).lastOpcode) == 0x05
    ensures var out := DumpFrame(data, p, s, verbose, rule);
            out.report.Pdu? && out.report.fixed == SetPathFields(data[p + 3], data[p + 4]) &&
            out.report.headers == Headers(data, p + 5, rule).trace
  {
  }

  /** Any other effective opcode reads no fixed fields: the header block
      starts right after the 3-byte prefix. */
  lemma OtherOpcodesReadNoFields(data: seq<byte>, p: nat, s: State, verbose: bool, rule: UnicodeRule)
    requires p + 3 <= |data|
    requires Low7(NextState(data[p], s).lastOpcode) != 0x00 && Low7(NextState(data[p], s).lastOpcode) != 0x05
    ensures var out := DumpFrame(data, p, s, verbose, rule);
            out.report.Pdu? && out.report.fixed == NoFields &&
            out.report.headers == Headers(data, p + 3, rule).trace
  {
  }

  /** A frame too short for the fixed fields of its effective opcode stops
      after the prefix: no field and no header is read, and the rest of the
      frame is left for the final dump. */
  lemma ShortFixedFieldsStop(data: seq<byte>, p: nat, s: State, verbose: bool, rule: UnicodeRule)
    requires p + 3 <= |data| && |data| < p + 3 + FixedSize(NextState(data[p], s).lastOpcode)
    ensures var out := DumpFrame(data, p, s, verbose, rule);
            out.report.Pdu? && out.report.fixed.FieldsCut? && out.report.headers == [] &&
            out.report.leftover == data[p + 3..] && out.ptr == p + 3
  {
  }

  /** A frame whose fixed fields are present is decoded to its end unless
      its header block ends in a cut header. */
  lemma DumpRunsToEnd(data: seq<byte>, p: nat, s: State, verbose: bool, rule: UnicodeRule)
    requires p + 3 <= |data|
    ensures var out := DumpFrame(data, p, s, verbose, rule);
            !out.report.fixed.FieldsCut? && out.ptr < |data| ==> EndsInCut(out.report.headers)
  {
    var eff := NextState(data[p], s).lastOpcode;
    var q := p + 3 + FixedSize(eff);
    if q <= |data| {
      HeadersRunToEnd(data, q, rule);
    }
  }

  /** A response decoded right after a request is labelled with that
      request, and its fixed fields are decoded as the request's. */
  lemma ResponseNamesPrecedingRequest(req: seq<byte>, rsp: seq<byte>, s: State, v1: bool, v2: bool, rule: UnicodeRule)
    requires 3 <= |req| && IsRequest(req[0])
    requires 3 <= |rsp| && !IsRequest(rsp[0])
    ensures var first := DumpFrame(req, 0, s, v1, rule);
            var second := DumpFrame(rsp, 0, first.state, v2, rule);
            second.report.Pdu? && second.report.summary.Response? &&
            second.report.summary.request == req[0] &&
            second.report.fixed == FixedFields(rsp, 3, req[0]) &&
            second.state == State(req[0], Low7(rsp[0]))
  {
    var first := DumpFrame(req, 0, s, v1, rule);
    DumpClassifies(req, 0, s, v1, rule);
    ResponseUsesLastRequest(rsp, 0, first.state, v2, rule);
  }

  /** Successive calls on one decoder: the reports of the frames in order
      and the correlation state after the last one. */
  function DumpAll(frames: seq<seq<byte>>, s: State, verbose: bool, rule: UnicodeRule): (r: (seq<Report>, State))
    ensures |r.0| == |frames|
  {
    if frames == [] then ([], s)
    else
      var out := DumpFrame(frames[0], 0, s, verbose, rule);
      var rest := DumpAll(frames[1..], out.state, verbose, rule);
      ([out.report] + rest.0, rest.1)
  }

  /** DumpAll from the i-th frame on: the report of that frame, then the
      rest from the state it leaves. */
  lemma DumpAllStep(frames: seq<seq<byte>>, i: nat, s: State, verbose: bool, rule: UnicodeRule, done: seq<Report>)
    requires i < |frames|
    ensures var out := DumpFrame(frames[i], 0, s, verbose, rule);
            var here, tail := DumpAll(frames[i..], s, verbose, rule), DumpAll(frames[i + 1..], out.state, verbose, rule);
            (done + here.0, here.1) == ((done + [out.report]) + tail.0, tail.1)
  {
    assert frames[i..][0] == frames[i] && frames[i..][1..] == frames[i + 1..];
    var out := DumpFrame(frames[i], 0, s, verbose, rule);
    var tail := DumpAll(frames[i + 1..], out.state, verbose, rule);
    assert done + ([out.report] + tail.0) == (done + [out.report]) + tail.0;
  }

  /** A run of response frames is labelled throughout with the last request
      seen before it, and leaves that request in place. */
  lemma {:induction false} ResponsesNameLastRequest(frames: seq<seq<byte>>, s: State, verbose: bool, rule: UnicodeRule)
    requires forall i :: 0 <= i < |frames| ==> 3 <= |frames[i]| && !IsRequest(frames[i][0])
    ensures var r := DumpAll(frames, s, verbose, rule);
            forall i :: 0 <= i < |frames| ==>
              r.0[i].Pdu? && r.0[i].summary.Response? && r.0[i].summary.request == s.lastOpcode
    ensures DumpAll(frames, s, verbose, rule).1.lastOpcode == s.lastOpcode
  {
    if frames != [] {
      var out := DumpFrame(frames[0], 0, s, verbose, rule);
      ResponseUsesLastRequest(frames[0], 0, s, verbose, rule);
      DumpClassifies(frames[0], 0, s, verbose, rule);
      var tail := frames[1..];
      assert forall i :: 0 <= i < |tail| ==> tail[i] == frames[i + 1];
      ResponsesNameLastRequest(tail, out.state, verbose, rule);
      var r, rest := DumpAll(frames, s, verbose, rule), DumpAll(tail, out.state, verbose, rule);
      assert r.0 == [out.report] + rest.0;
      forall i | 0 <= i < |frames|
        ensures r.0[i].Pdu? && r.0[i].summary.Response? && r.0[i].summary.request == s.lastOpcode
      {
        if i > 0 { assert r.0[i] == rest.0[i - 1]; }
      }
    }
  }

  /** The wire form of one PDU: the opcode, the 16-bit packet length
      counting the whole frame, the fixed fields and the header block. */
  function EncodeFrame(opcode: byte, fields: seq<byte>, hs: seq<WireHeader>): (d: seq<byte>)
    requires AllWellFormed(hs) && 3 + |fields| + |EncodeAll(hs)| < 0x1_0000
    ensures |d| == 3 + |fields| + |EncodeAll(hs)|
  {
    [opcode] + U16Octets(3 + |fields| + |EncodeAll(hs)|) + fields + EncodeAll(hs)
  }

  /** Round trip: a complete PDU, with as many fixed-field bytes as its
      effective opcode calls for, is decoded without a partial note, with
      exactly its headers, consuming the whole frame and leaving nothing for
      the final dump: always with the corrected Unicode rule, and for the
      program as written whenever the PDU carries no Unicode header. */
  lemma FrameRoundTrip(opcode: byte, fields: seq<byte>, hs: seq<WireHeader>, s: State, verbose: bool, rule: UnicodeRule)
    requires AllWellFormed(hs) && (rule.Corrected? || NoUnicode(hs)) && 3 + |fields| + |EncodeAll(hs)| < 0x1_0000
    requires |fields| == FixedSize(NextState(opcode, s).lastOpcode)
    ensures var d := EncodeFrame(opcode, fields, hs);
            var out := DumpFrame(d, 0, s, verbose, rule);
            out.report.Pdu? && out.report.partial.None? && !out.report.fixed.FieldsCut? &&
            out.report.summary.length == |d| &&
            out.report.headers == Entries(hs) && out.report.leftover == [] &&
            out.ptr == |d| && out.state == NextState(opcode, s)
  {
    var d := EncodeFrame(opcode, fields, hs);
    var e := EncodeAll(hs);
    var lo := U16Octets(3 + |fields| + |e|);
    assert d == [opcode] + lo + fields + e;
    assert d[0] == opcode && d[1] == lo[0] && d[2] == lo[1];
    var q := 3 + |fields|;
    assert d[q..] == e;
    HeadersRoundTrip(d, q, hs, rule);
    DumpFrameDecoded(d, 0, s, verbose, rule, q, Headers(d, q, rule));
    assert d[|d|..] == [];
  }

  /** A Connect request (opcode 0x00, length 7, version 1.0, flags 0,
      maximum packet length 1024) followed by its final Success response
      with the same fields: the response is labelled Connect, carries status
      2.0 and, with verbose output, the status line "Success". */
  lemma ConnectExchange()
    ensures var req := DumpFrame([0x00, 0x00, 0x07, 0x10, 0x00, 0x04, 0x00], 0, Initial, false, AsWritten);
            req == Outcome(Pdu(None, Command(0x00, false, 7), ConnectFields(1, 0, 0, 1024), None, [], []), State(0x00, 0x00), 7)
    ensures var rsp := DumpFrame([0xa0, 0x00, 0x07, 0x10, 0x00, 0x04, 0x00], 0, State(0x00, 0x00), true, AsWritten);
            rsp == Outcome(Pdu(None, Response(0x00, true, 2, 0, 7), ConnectFields(1, 0, 0, 1024), Some(StatusLine(2, 0, 0x20)), [], []),
                           State(0x00, 0x20), 7)
    ensures OpcodeText(0x00) == "Connect" && OpcodeText(0x20) == "Success"
  {
    var req: seq<byte> := [0x00, 0x00, 0x07, 0x10, 0x00, 0x04, 0x00];
    var rsp: seq<byte> := [0xa0, 0x00, 0x07, 0x10, 0x00, 0x04, 0x00];
    assert Headers(req, 7, AsWritten) == Parsed([], 7);
    assert Headers(rsp, 7, AsWritten) == Parsed([], 7);
    DumpFrameDecoded(req, 0, Initial, false, AsWritten, 7, Parsed([], 7));
    DumpFrameDecoded(rsp, 0, State(0x00, 0x00), true, AsWritten, 7, Parsed([], 7));
  }

  /** An Abort frame (0xff, length 3) after a Put request is reported as a
      response to Put and leaves Put as the last request. */
  lemma AbortAfterPut()
    ensures var rsp := DumpFrame([0xff, 0x00, 0x03], 0, State(0x02, 0x02), false, AsWritten);
            rsp.report.Pdu? && rsp.report.summary == Response(0x02, true, 7, 15, 3) && rsp.state == State(0x02, 0x7f)
    ensures OpcodeText(0x02) == "Put"
  {
    var d: seq<byte> := [0xff, 0x00, 0x03];
    AbortIsResponse();
    assert Headers(d, 3, AsWritten) == Parsed([], 3);
    DumpFrameDecoded(d, 0, State(0x02, 0x02), false, AsWritten, 3, Parsed([], 3));
  }

  /** A final Put (0x82, length 15) carrying the Name-then-Length header
      block. */
  const PutWithName: seq<byte> := [0x82, 0x00, 0x0f] + NameThenLengthOctets

  /** With the source's Unicode arithmetic, the Name header of PutWithName
      reports length 4 and then wants 10 bytes where 9 remain. The model
      stops there, so the Length header is never reported, and the nine
      bytes after the Name header's prefix are what its final dump gets. */
  lemma PutWithNameAsWritten()
    ensures var out := DumpFrame(PutWithName, 0, Initial, false, AsWritten);
            out.report.Pdu? && out.report.partial.None? &&
            out.report.headers == [Cut(0x01, Some(4), 10, 9)] &&
            out.report.leftover == PutWithName[6..] && |out.report.leftover| == 9
  {
    var d := PutWithName;
    assert d[3] == 0x01 && Be16(d[4], d[5]) == 7;
    assert HeaderAt(d, 3, AsWritten) == Stop(Cut(0x01, Some(4), 10, 9), 3);
    HeadersStop(d, 3, AsWritten, Cut(0x01, Some(4), 10, 9), 3);
    DumpFrameDecoded(d, 0, Initial, false, AsWritten, 3, Parsed([Cut(0x01, Some(4), 10, 9)], 6));
  }

  /** With the corrected Unicode rule both headers of PutWithName are
      reported and nothing is left over. */
  lemma PutWithNameCorrected()
    ensures var out := DumpFrame(PutWithName, 0, Initial, false, Corrected);
            out.report.Pdu? && out.report.headers == Entries(NameThenLength) && out.report.leftover == []
  {
    NameThenLengthEncoding();
    assert U16Octets(15) == [0x00, 0x0f];
    assert EncodeFrame(0x82, [], NameThenLength) == PutWithName;
    FrameRoundTrip(0x82, [], NameThenLength, Initial, false, Corrected);
  }
}
