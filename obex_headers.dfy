/** The header-block parser `parse_headers`: a loop that reads one header
    identifier at a time and decodes its value in the encoding picked by the
    identifier's top two bits, until the frame's remaining length is zero. */
module ObexHeaders {
  import opened ObexBytes
  import opened ObexNames
  import opened ObexFrame

  /** A decoded header value, one variant per encoding class. For the two
      variable-length encodings `len` is the reported length (the declared
      total minus the 3-byte prefix, as a 16-bit unsigned value) and
      `payload` the bytes rendered as a hex dump. */
  datatype Value =
    | UnicodeText(len: nat, payload: seq<byte>)
    | ByteSeq(len: nat, payload: seq<byte>)
    | OneByte(v: nat)
    | FourBytes(v: nat)

  datatype Option<T> = None | Some(value: T)

  /** One line of the header block: a decoded header, or a header whose next
      read or advance needs more bytes than the frame still holds. A cut
      variable-length header whose length field was read keeps the length
      it reports (`reported`). The line names the header by `HeaderText(id)`. */
  datatype HeaderRecord =
    | Entry(id: byte, value: Value)
    | Cut(id: byte, reported: Option<nat>, needed: nat, available: nat)

  /** How the Unicode branch sizes its payload. `AsWritten` is the source's
      arithmetic: `len * 2` bytes dumped and `(len + 1) * 2` bytes skipped.
      `Corrected` treats the declared total as a byte count, as the
      byte-sequence branch and the IrOBEX header format do. */
  datatype UnicodeRule = AsWritten | Corrected

  /** The payload length a variable-length header reports: the declared total
      minus 3, computed in a 16-bit unsigned variable. */
  function PayloadLen(total: nat): (len: nat)
    requires total < 0x1_0000
    ensures len < 0x1_0000
    ensures total >= 3 ==> len == total - 3
    ensures total < 3 ==> len == total + 0x1_0000 - 3
  {
    if total >= 3 then total - 3 else total + 0x1_0000 - 3
  }

  /** Bytes rendered and bytes skipped after the 3-byte prefix of a Unicode
      header reporting `len`. */
  function UnicodeSpan(rule: UnicodeRule, len: nat): (span: (nat, nat))
    ensures span.0 <= span.1
    ensures rule.Corrected? ==> span == (len, len)
    ensures rule.AsWritten? ==> span.1 == span.0 + 2
  {
    match rule
    case AsWritten => (len * 2, (len + 1) * 2)
    case Corrected => (len, len)
  }

  /** The outcome of decoding the header that starts at one offset: the
      record and the number of bytes it took up, or the record of a header
      that runs out of bytes and the number of bytes read before stopping. */
  datatype Step = Next(rec: HeaderRecord, size: nat) | Stop(rec: HeaderRecord, used: nat)

  /** One iteration of the loop body at offset `p`: the identifier's top two
      bits pick the encoding class. */
  function HeaderAt(data: seq<byte>, p: nat, rule: UnicodeRule): (st: Step)
    requires p < |data|
    ensures st.Next? ==> 2 <= st.size <= |data| - p && st.rec.Entry?
    ensures st.Stop? ==> 1 <= st.used <= |data| - p && st.rec.Cut?
    ensures st.rec.id == data[p]
  {
    if High2(data[p]) == 0x80 then OneByteAt(data, p)
    else if High2(data[p]) == 0xc0 then FourBytesAt(data, p)
    else VariableAt(data, p, rule)
  }

  /** The one-byte class: a single value octet. */
  function OneByteAt(data: seq<byte>, p: nat): (st: Step)
    requires p < |data|
    ensures st.Next? ==> st.size == 2 <= |data| - p && st.rec.Entry?
    ensures st.Stop? ==> st.used == 1 && st.rec.Cut?
    ensures st.rec.id == data[p]
  {
    var avail := |data| - p - 1;
    if avail < 1 then Stop(Cut(data[p], None, 1, avail), 1)
    else Next(Entry(data[p], OneByte(data[p + 1])), 2)
  }

  /** The four-byte class: a network-order 32-bit value. */
  function FourBytesAt(data: seq<byte>, p: nat): (st: Step)
    requires p < |data|
    ensures st.Next? ==> st.size == 5 <= |data| - p && st.rec.Entry?
    ensures st.Stop? ==> st.used == 1 && st.rec.Cut?
    ensures st.rec.id == data[p]
  {
    var avail := |data| - p - 1;
    if avail < 4 then Stop(Cut(data[p], None, 4, avail), 1)
    else Next(Entry(data[p], FourBytes(Be32(data[p + 1], data[p + 2], data[p + 3], data[p + 4]))), 5)
  }

  /** The two variable-length classes (Unicode text and byte sequence): a
      16-bit declared total, then the payload. */
  function VariableAt(data: seq<byte>, p: nat, rule: UnicodeRule): (st: Step)
    requires p < |data|
    ensures st.Next? ==> 3 <= st.size <= |data| - p && st.rec.Entry?
    ensures st.Stop? ==> 1 <= st.used <= 3 && st.used <= |data| - p && st.rec.Cut?
    ensures st.rec.id == data[p]
  {
    var hi := data[p];
    var avail := |data| - p - 1;
    if avail < 2 then Stop(Cut(hi, None, 2, avail), 1)
    else
      var len := PayloadLen(Be16(data[p + 1], data[p + 2]));
      var span := if High2(hi) == 0x40 then (len, len) else UnicodeSpan(rule, len);
      var rest := |data| - p - 3;
      if rest < span.1 then Stop(Cut(hi, Some(len), span.1, rest), 3)
      else
        var payload := data[p + 3 .. p + 3 + span.0];
        Next(Entry(hi, if High2(hi) == 0x40 then ByteSeq(len, payload) else UnicodeText(len, payload)),
             3 + span.1)
  }

  /** The trace of a header block and where the cursor ends. */
  datatype Parsed = Parsed(trace: seq<HeaderRecord>, ptr: nat)

  /** The whole loop, from offset `p` to the end of the frame. */
  function Headers(data: seq<byte>, p: nat, rule: UnicodeRule): (r: Parsed)
    requires p <= |data|
    ensures p <= r.ptr <= |data|
    decreases |data| - p
  {
    if p == |data| then Parsed([], p)
    else
      match HeaderAt(data, p, rule)
      case Next(rec, n) =>
        var tail := Headers(data, p + n, rule);
        Parsed([rec] + tail.trace, tail.ptr)
      case Stop(rec, u) => Parsed([rec], p + u)
  }

  /** The records `done` already emitted, followed by the rest of a parse. */
  function After(done: seq<HeaderRecord>, r: Parsed): Parsed
  {
    Parsed(done + r.trace, r.ptr)
  }

  /** One iteration of `parse_headers`: reads a header identifier and its
      value, or stops at the first read or advance that would overrun the
      frame (`stop`). */
  method ParseHeader(frm: Frame, rule: UnicodeRule) returns (rec: HeaderRecord, stop: bool)
    requires frm.Valid() && frm.len > 0
    modifies frm
    ensures frm.Valid() && old(frm.ptr) < frm.ptr
    ensures stop ==> HeaderAt(frm.data, old(frm.ptr), rule) == Stop(rec, frm.ptr - old(frm.ptr))
    ensures !stop ==> HeaderAt(frm.data, old(frm.ptr), rule) == Next(rec, frm.ptr - old(frm.ptr))
  {
    var hi := frm.GetU8();
    if High2(hi) == 0x80 {
      rec, stop := ParseOneByte(frm, hi);
    } else if High2(hi) == 0xc0 {
      rec, stop := ParseFourBytes(frm, hi);
    } else {
      rec, stop := ParseVariable(frm, hi, rule);
    }
  }

  /** The one-byte branch, entered with the identifier `hi` just read. */
  method ParseOneByte(frm: Frame, hi: byte) returns (rec: HeaderRecord, stop: bool)
    requires frm.Valid() && 1 <= frm.ptr && frm.data[frm.ptr - 1] == hi
    modifies frm
    ensures frm.Valid() && old(frm.ptr) <= frm.ptr
    ensures stop ==> OneByteAt(frm.data, old(frm.ptr) - 1) == Stop(rec, frm.ptr - old(frm.ptr) + 1)
    ensures !stop ==> OneByteAt(frm.data, old(frm.ptr) - 1) == Next(rec, frm.ptr - old(frm.ptr) + 1)
  {
    if frm.len < 1 {
      return Cut(hi, None, 1, frm.len), true;
    }
    var hv8 := frm.GetU8();
    return Entry(hi, OneByte(hv8)), false;
  }

  /** The four-byte branch, entered with the identifier `hi` just read. */
  method ParseFourBytes(frm: Frame, hi: byte) returns (rec: HeaderRecord, stop: bool)
    requires frm.Valid() && 1 <= frm.ptr && frm.data[frm.ptr - 1] == hi
    modifies frm
    ensures frm.Valid() && old(frm.ptr) <= frm.ptr
    ensures stop ==> FourBytesAt(frm.data, old(frm.ptr) - 1) == Stop(rec, frm.ptr - old(frm.ptr) + 1)
    ensures !stop ==> FourBytesAt(frm.data, old(frm.ptr) - 1) == Next(rec, frm.ptr - old(frm.ptr) + 1)
  {
    if frm.len < 4 {
      return Cut(hi, None, 4, frm.len), true;
    }
    var hv32 := frm.GetU32();
    return Entry(hi, FourBytes(hv32)), false;
  }

  /** The Unicode and byte-sequence branches, entered with the identifier
      `hi` just read. */
  method ParseVariable(frm: Frame, hi: byte, rule: UnicodeRule) returns (rec: HeaderRecord, stop: bool)
    requires frm.Valid() && 1 <= frm.ptr && frm.data[frm.ptr - 1] == hi
    modifies frm
    ensures frm.Valid() && old(frm.ptr) <= frm.ptr
    ensures stop ==> VariableAt(frm.data, old(frm.ptr) - 1, rule) == Stop(rec, frm.ptr - old(frm.ptr) + 1)
    ensures !stop ==> VariableAt(frm.data, old(frm.ptr) - 1, rule) == Next(rec, frm.ptr - old(frm.ptr) + 1)
  {
    if frm.len < 2 {
      return Cut(hi, None, 2, frm.len), true;
    }
    var total := frm.GetU16();
    var len := PayloadLen(total);
    var span := if High2(hi) == 0x40 then (len, len) else UnicodeSpan(rule, len);
    if frm.len < span.1 {
      return Cut(hi, Some(len), span.1, frm.len), true;
    }
    // `raw_ndump` renders the payload without moving the cursor
    var payload := frm.data[frm.ptr .. frm.ptr + span.0];
    rec := Entry(hi, if High2(hi) == 0x40 then ByteSeq(len, payload) else UnicodeText(len, payload));
    stop := false;
    frm.Skip(span.1);
  }

  /** `parse_headers`, with the source's unchecked reads and advances
      replaced by a stop at the first header that would overrun the frame. */
  method ParseHeaders(frm: Frame, rule: UnicodeRule) returns (trace: seq<HeaderRecord>)
    requires frm.Valid()
    modifies frm
    ensures frm.Valid()
    ensures Headers(frm.data, old(frm.ptr), rule) == Parsed(trace, frm.ptr)
  {
    trace := [];
    assert [] + Headers(frm.data, frm.ptr, rule).trace == Headers(frm.data, frm.ptr, rule).trace;
    while frm.len > 0
      invariant frm.Valid() && old(frm.ptr) <= frm.ptr
      invariant Headers(frm.data, old(frm.ptr), rule) == After(trace, Headers(frm.data, frm.ptr, rule))
      decreases frm.len
    {
      ghost var start, before := frm.ptr, trace;
      var rec, stop := ParseHeader(frm, rule);
      trace := trace + [rec];
      LoopBody(frm.data, start, rule, before, rec, stop, frm.ptr - start);
      if stop {
        return;
      }
    }
    LoopEnd(frm.data, rule, trace);
  }

  /** Loop maintenance for ParseHeaders: decoding one more header moves its
      record from the rest of the parse to the records already emitted, and
      a header that runs out of bytes ends the parse. */
  lemma LoopBody(data: seq<byte>, p: nat, rule: UnicodeRule, done: seq<HeaderRecord>, rec: HeaderRecord, stop: bool, n: nat)
    requires p < |data|
    requires stop ==> HeaderAt(data, p, rule) == Stop(rec, n)
    requires !stop ==> HeaderAt(data, p, rule) == Next(rec, n)
    ensures p + n <= |data|
    ensures stop ==> After(done, Headers(data, p, rule)) == Parsed(done + [rec], p + n)
    ensures !stop ==> After(done, Headers(data, p, rule)) == After(done + [rec], Headers(data, p + n, rule))
  {
    if stop {
      HeadersStop(data, p, rule, rec, n);
    } else {
      HeadersStep(data, p, rule, rec, n);
      var tail := Headers(data, p + n, rule);
      assert done + ([rec] + tail.trace) == (done + [rec]) + tail.trace;
    }
  }

  /** Loop exit for ParseHeaders at the end of the frame. */
  lemma LoopEnd(data: seq<byte>, rule: UnicodeRule, done: seq<HeaderRecord>)
    ensures After(done, Headers(data, |data|, rule)) == Parsed(done, |data|)
  {
    assert done + [] == done;
  }

  /** Every record but possibly the last is a decoded header. */
  predicate CutOnlyLast(t: seq<HeaderRecord>)
  {
    |t| <= 1 || (t[0].Entry? && CutOnlyLast(t[1..]))
  }

  predicate EndsInCut(t: seq<HeaderRecord>)
  {
    t != [] && t[|t| - 1].Cut?
  }

  /** Only the last record of a header block can be a cut header. */
  lemma {:induction false} HeadersCutOnlyLast(data: seq<byte>, p: nat, rule: UnicodeRule)
    requires p <= |data|
    ensures CutOnlyLast(Headers(data, p, rule).trace)
    decreases |data| - p
  {
    if p < |data| {
      var st := HeaderAt(data, p, rule);
      if st.Next? {
        HeadersStep(data, p, rule, st.rec, st.size);
        HeadersCutOnlyLast(data, p + st.size, rule);
        CutOnlyLastCons(st.rec, Headers(data, p + st.size, rule).trace);
      } else {
        HeadersStop(data, p, rule, st.rec, st.used);
      }
    }
  }

  /** The loop keeps going until the remaining length reaches zero: a header
      block that does not end in a cut header has consumed the whole frame. */
  lemma {:induction false} HeadersRunToEnd(data: seq<byte>, p: nat, rule: UnicodeRule)
    requires p <= |data|
    ensures Headers(data, p, rule).ptr < |data| ==> EndsInCut(Headers(data, p, rule).trace)
    decreases |data| - p
  {
    if p < |data| {
      var st := HeaderAt(data, p, rule);
      if st.Next? {
        HeadersStep(data, p, rule, st.rec, st.size);
        HeadersRunToEnd(data, p + st.size, rule);
        EndsInCutCons(st.rec, Headers(data, p + st.size, rule).trace);
      } else {
        HeadersStop(data, p, rule, st.rec, st.used);
      }
    }
  }

  lemma CutOnlyLastCons(rec: HeaderRecord, t: seq<HeaderRecord>)
    requires rec.Entry? && CutOnlyLast(t)
    ensures CutOnlyLast([rec] + t)
  {
    assert ([rec] + t)[1..] == t;
  }

  lemma EndsInCutCons(rec: HeaderRecord, t: seq<HeaderRecord>)
    ensures EndsInCut(t) ==> EndsInCut([rec] + t)
  {
    if t != [] { assert ([rec] + t)[|t|] == t[|t| - 1]; }
  }

  /** A one-byte header (top bits 10) takes exactly two bytes and carries the
      octet after the identifier. */
  lemma OneByteHeader(data: seq<byte>, p: nat, rule: UnicodeRule)
    requires p + 2 <= |data| && High2(data[p]) == 0x80
    ensures HeaderAt(data, p, rule) == Next(Entry(data[p], OneByte(data[p + 1])), 2)
  {
  }

  /** A four-byte header (top bits 11) takes exactly five bytes and carries
      the big-endian value after the identifier. */
  lemma FourByteHeader(data: seq<byte>, p: nat, rule: UnicodeRule)
    requires p + 5 <= |data| && High2(data[p]) == 0xc0
    ensures HeaderAt(data, p, rule)
            == Next(Entry(data[p], FourBytes(Be32(data[p + 1], data[p + 2], data[p + 3], data[p + 4]))), 5)
  {
  }

  /** A byte-sequence header (top bits 01) whose declared total T is at least
      3 and fits the frame reports and renders T - 3 bytes and takes exactly
      T bytes, so the next identifier is read at offset T from its start. */
  lemma ByteSeqHeader(data: seq<byte>, p: nat, rule: UnicodeRule)
    requires p + 3 <= |data| && High2(data[p]) == 0x40
    requires var t := Be16(data[p + 1], data[p + 2]); 3 <= t && p + t <= |data|
    ensures var t := Be16(data[p + 1], data[p + 2]);
            HeaderAt(data, p, rule) == Next(Entry(data[p], ByteSeq(t - 3, data[p + 3 .. p + t])), t) &&
            Headers(data, p, rule).trace == [Entry(data[p], ByteSeq(t - 3, data[p + 3 .. p + t]))] + Headers(data, p + t, rule).trace
  {
  }

  /** A variable-length header, Unicode or byte sequence, declaring a total
      T below 3 wraps its 16-bit reported length to 65533 + T. A byte
      sequence then wants that many bytes after its prefix; a Unicode header
      wants (65533 + T + 1) * 2 of them as written and 65533 + T with the
      corrected rule. It stops exactly when those bytes are not in the frame,
      and otherwise reports the wrapped length. */
  lemma VariableHeaderWraps(data: seq<byte>, p: nat, rule: UnicodeRule)
    requires p + 3 <= |data| && (High2(data[p]) == 0x00 || High2(data[p]) == 0x40)
    requires Be16(data[p + 1], data[p + 2]) < 3
    ensures var t := Be16(data[p + 1], data[p + 2]);
            var len := t + 0x1_0000 - 3;
            var st := HeaderAt(data, p, rule);
            PayloadLen(t) == len &&
            (High2(data[p]) == 0x40 ==> (st.rec.Cut? <==> |data| - p - 3 < len)) &&
            (High2(data[p]) == 0x00 ==>
               (st.rec.Cut? <==> |data| - p - 3 < (if rule.AsWritten? then (len + 1) * 2 else len))) &&
            (st.rec.Entry? ==> st.rec.value.len == len) &&
            (st.rec.Cut? ==> st.rec.reported == Some(len))
  {
  }

  /** A cut variable-length header keeps the length it reports exactly when
      its 16-bit length field was inside the frame, that is when the source
      has already printed that length before the overrun. */
  lemma CutReportsLength(data: seq<byte>, p: nat, rule: UnicodeRule)
    requires p < |data| && (High2(data[p]) == 0x00 || High2(data[p]) == 0x40)
    ensures var st := HeaderAt(data, p, rule);
            st.rec.Cut? ==>
              (st.rec.reported.Some? <==> p + 3 <= |data|) &&
              (st.rec.reported.Some? ==> st.rec.reported.value == PayloadLen(Be16(data[p + 1], data[p + 2])))
  {
  }

  /** A byte sequence declaring 5 bytes with one payload byte present is cut
      after reporting length 2; one whose length field is itself cut short
      reports nothing. */
  lemma CutByteSequences()
    ensures HeaderAt([0x42, 0x00, 0x05, 0xaa], 0, AsWritten) == Stop(Cut(0x42, Some(2), 2, 1), 3)
    ensures HeaderAt([0x42, 0x00], 0, AsWritten) == Stop(Cut(0x42, None, 2, 1), 1)
  {
  }

  /** The source's Unicode branch: a header declaring total T (at least 3)
      reports len = T - 3, renders 2 * len bytes and skips (len + 1) * 2
      bytes after its prefix, so it takes 2 * T - 1 bytes rather than T. */
  lemma UnicodeHeaderAsWritten(data: seq<byte>, p: nat)
    requires p + 3 <= |data| && High2(data[p]) == 0x00
    requires var t := Be16(data[p + 1], data[p + 2]); 3 <= t && p + 2 * t - 1 <= |data|
    ensures var t := Be16(data[p + 1], data[p + 2]);
            HeaderAt(data, p, AsWritten)
            == Next(Entry(data[p], UnicodeText(t - 3, data[p + 3 .. p + 3 + 2 * (t - 3)])), 2 * t - 1)
  {
  }

  /** With the corrected rule a Unicode header declaring total T (at least 3)
      renders T - 3 bytes and takes exactly T bytes, like a byte sequence. */
  lemma UnicodeHeaderCorrected(data: seq<byte>, p: nat)
    requires p + 3 <= |data| && High2(data[p]) == 0x00
    requires var t := Be16(data[p + 1], data[p + 2]); 3 <= t && p + t <= |data|
    ensures var t := Be16(data[p + 1], data[p + 2]);
            HeaderAt(data, p, Corrected) == Next(Entry(data[p], UnicodeText(t - 3, data[p + 3 .. p + t])), t) &&
            Headers(data, p, Corrected).trace == [Entry(data[p], UnicodeText(t - 3, data[p + 3 .. p + t]))] + Headers(data, p + t, Corrected).trace
  {
  }

  /** A header as an OBEX peer writes it: an identifier and a value of the
      encoding class the identifier selects. */
  datatype WireHeader = WireHeader(id: byte, value: Value)

  predicate WellFormed(h: WireHeader)
  {
    match h.value
    case UnicodeText(len, payload) => High2(h.id) == 0x00 && len == |payload| && |payload| + 3 < 0x1_0000
    case ByteSeq(len, payload) => High2(h.id) == 0x40 && len == |payload| && |payload| + 3 < 0x1_0000
    case OneByte(v) => High2(h.id) == 0x80 && v < 0x100
    case FourBytes(v) => High2(h.id) == 0xc0 && v < 0x1_0000_0000
  }

  predicate AllWellFormed(hs: seq<WireHeader>)
  {
    forall i :: 0 <= i < |hs| ==> WellFormed(hs[i])
  }

  /** The IrOBEX wire form of one header: the identifier, then a 16-bit total
      length (counting the 3-byte prefix) and the payload, or the single
      octet, or the four octets in network order. */
  function Encode(h: WireHeader): (s: seq<byte>)
    requires WellFormed(h)
    ensures 2 <= |s| && s[0] == h.id
  {
    [h.id] +
      match h.value
      case UnicodeText(_, payload) => U16Octets(|payload| + 3) + payload
      case ByteSeq(_, payload) => U16Octets(|payload| + 3) + payload
      case OneByte(v) => [v]
      case FourBytes(v) => U32Octets(v)
  }

  function EncodeAll(hs: seq<WireHeader>): seq<byte>
    requires AllWellFormed(hs)
  {
    if hs == [] then [] else Encode(hs[0]) + EncodeAll(hs[1..])
  }

  /** The records the decoder should produce for a sequence of headers. */
  function Entries(hs: seq<WireHeader>): (r: seq<HeaderRecord>)
    ensures |r| == |hs|
  {
    if hs == [] then [] else [Entry(hs[0].id, hs[0].value)] + Entries(hs[1..])
  }

  /** Decoding a header found written at offset `p` recovers it and takes
      up exactly its encoded length, whatever surrounds it: always with the
      corrected Unicode rule, and as written for every header that is not
      Unicode text. */
  lemma HeaderAtEncoded(d: seq<byte>, p: nat, h: WireHeader, rule: UnicodeRule)
    requires WellFormed(h) && (rule.Corrected? || !h.value.UnicodeText?)
    requires p + |Encode(h)| <= |d| && d[p..p + |Encode(h)|] == Encode(h)
    ensures HeaderAt(d, p, rule) == Next(Entry(h.id, h.value), |Encode(h)|)
  {
    match h.value
    case UnicodeText(len, payload) =>
      assert Encode(h) == [h.id] + U16Octets(|payload| + 3) + payload;
      VariableAtEncoded(d, p, h.id, payload, rule);
    case ByteSeq(len, payload) =>
      assert Encode(h) == [h.id] + U16Octets(|payload| + 3) + payload;
      VariableAtEncoded(d, p, h.id, payload, rule);
    case OneByte(v) =>
      assert Encode(h) == [h.id, v];
      OneByteAtEncoded(d, p, h.id, v, rule);
    case FourBytes(v) =>
      assert Encode(h) == [h.id] + U32Octets(v);
      FourBytesAtEncoded(d, p, h.id, v, rule);
  }

  /** The one-byte case of HeaderAtEncoded. */
  lemma OneByteAtEncoded(d: seq<byte>, p: nat, id: byte, v: byte, rule: UnicodeRule)
    requires High2(id) == 0x80
    requires p + 2 <= |d| && d[p..p + 2] == [id, v]
    ensures HeaderAt(d, p, rule) == Next(Entry(id, OneByte(v)), 2)
  {
    assert d[p] == d[p..p + 2][0] && d[p + 1] == d[p..p + 2][1];
  }

  /** The four-byte case of HeaderAtEncoded. */
  lemma FourBytesAtEncoded(d: seq<byte>, p: nat, id: byte, v: nat, rule: UnicodeRule)
    requires High2(id) == 0xc0 && v < 0x1_0000_0000
    requires p + 5 <= |d| && d[p..p + 5] == [id] + U32Octets(v)
    ensures HeaderAt(d, p, rule) == Next(Entry(id, FourBytes(v)), 5)
  {
    var e := [id] + U32Octets(v);
    assert d[p] == e[0] && d[p + 1] == e[1] && d[p + 2] == e[2] && d[p + 3] == e[3] && d[p + 4] == e[4];
    Be32Octets(v);
  }

  /** The variable-length case of HeaderAtEncoded. */
  lemma VariableAtEncoded(d: seq<byte>, p: nat, id: byte, payload: seq<byte>, rule: UnicodeRule)
    requires (High2(id) == 0x00 && rule.Corrected?) || High2(id) == 0x40
    requires |payload| + 3 < 0x1_0000
    requires p + 3 + |payload| <= |d|
    requires d[p..p + 3 + |payload|] == [id] + U16Octets(|payload| + 3) + payload
    ensures HeaderAt(d, p, rule)
            == Next(Entry(id, if High2(id) == 0x40 then ByteSeq(|payload|, payload) else UnicodeText(|payload|, payload)),
                    3 + |payload|)
  {
    var lo := U16Octets(|payload| + 3);
    var e := [id] + lo + payload;
    assert d[p] == e[0] == id;
    assert d[p + 1] == e[1] == lo[0] && d[p + 2] == e[2] == lo[1];
    assert Be16(d[p + 1], d[p + 2]) == |payload| + 3;
    assert d[p + 3 .. p + 3 + |payload|] == e[3..] == payload;
  }

  /** Unfolding the loop once at a header that decodes completely. */
  lemma HeadersStep(data: seq<byte>, p: nat, rule: UnicodeRule, rec: HeaderRecord, n: nat)
    requires p < |data| && HeaderAt(data, p, rule) == Next(rec, n)
    ensures p + n <= |data|
    ensures Headers(data, p, rule) == After([rec], Headers(data, p + n, rule))
  {
  }

  /** Unfolding the loop once at a header that runs out of bytes. */
  lemma HeadersStop(data: seq<byte>, p: nat, rule: UnicodeRule, rec: HeaderRecord, u: nat)
    requires p < |data| && HeaderAt(data, p, rule) == Stop(rec, u)
    ensures Headers(data, p, rule) == Parsed([rec], p + u)
  {
  }

  /** No header of the block is Unicode text. */
  predicate NoUnicode(hs: seq<WireHeader>)
  {
    forall i :: 0 <= i < |hs| ==> !hs[i].value.UnicodeText?
  }

  /** Round trip: a header block written by a peer, found at offset `p` and
      running to the end of the frame, decodes to exactly its headers and
      leaves the cursor at the end. This holds for every block with the
      corrected Unicode rule, and for the program as written on every block
      without a Unicode header. */
  lemma {:induction false} HeadersRoundTrip(d: seq<byte>, p: nat, hs: seq<WireHeader>, rule: UnicodeRule)
    requires AllWellFormed(hs) && (rule.Corrected? || NoUnicode(hs))
    requires p <= |d| && d[p..] == EncodeAll(hs)
    ensures Headers(d, p, rule) == Parsed(Entries(hs), |d|)
    decreases |hs|
  {
    if hs == [] {
      assert |d[p..]| == 0;
    } else {
      var n := RoundTripStep(d, p, hs, rule);
      HeadersRoundTrip(d, p + n, hs[1..], rule);
    }
  }

  /** One header of HeadersRoundTrip: the first header decodes to its entry
      and the rest of the block follows it. */
  lemma RoundTripStep(d: seq<byte>, p: nat, hs: seq<WireHeader>, rule: UnicodeRule) returns (n: nat)
    requires hs != [] && AllWellFormed(hs) && (rule.Corrected? || NoUnicode(hs))
    requires p <= |d| && d[p..] == EncodeAll(hs)
    ensures p + n <= |d| && AllWellFormed(hs[1..]) && d[p + n..] == EncodeAll(hs[1..])
    ensures rule.Corrected? || NoUnicode(hs[1..])
    ensures Headers(d, p, rule) == After([Entry(hs[0].id, hs[0].value)], Headers(d, p + n, rule))
  {
    var e := Encode(hs[0]);
    TailWellFormed(hs);
    TailNoUnicode(hs, rule);
    n := |e|;
    assert d[p..] == e + EncodeAll(hs[1..]);
    SplitSuffix(d, p, e, EncodeAll(hs[1..]));
    HeaderAtEncoded(d, p, hs[0], rule);
    HeadersStep(d, p, rule, Entry(hs[0].id, hs[0].value), n);
  }

  lemma SplitSuffix(s: seq<byte>, p: nat, a: seq<byte>, b: seq<byte>)
    requires p <= |s| && s[p..] == a + b
    ensures p + |a| <= |s| && s[p..p + |a|] == a && s[p + |a|..] == b
  {
    assert s[p..p + |a|] == s[p..][..|a|];
    assert s[p + |a|..] == s[p..][|a|..];
  }

  lemma TailWellFormed(hs: seq<WireHeader>)
    requires hs != [] && AllWellFormed(hs)
    ensures AllWellFormed(hs[1..])
  {
    forall i | 0 <= i < |hs| - 1 ensures WellFormed(hs[1..][i]) { assert hs[1..][i] == hs[i + 1]; }
  }

  lemma TailNoUnicode(hs: seq<WireHeader>, rule: UnicodeRule)
    requires hs != [] && (rule.Corrected? || NoUnicode(hs))
    ensures rule.Corrected? || !hs[0].value.UnicodeText?
    ensures rule.Corrected? || NoUnicode(hs[1..])
  {
    if !rule.Corrected? {
      forall i | 0 <= i < |hs| - 1 ensures !hs[1..][i].value.UnicodeText? { assert hs[1..][i] == hs[i + 1]; }
    }
  }

  /** A Name header holding "A" in UTF-16 with its terminating null
      (declared total 7), followed by a Length header of 42. */
  const NameThenLength: seq<WireHeader> :=
    [WireHeader(0x01, UnicodeText(4, [0x00, 0x41, 0x00, 0x00])), WireHeader(0xc3, FourBytes(42))]

  const NameThenLengthOctets: seq<byte> :=
    [0x01, 0x00, 0x07, 0x00, 0x41, 0x00, 0x00, 0xc3, 0x00, 0x00, 0x00, 0x2a]

  lemma NameThenLengthEncoding()
    ensures AllWellFormed(NameThenLength) && EncodeAll(NameThenLength) == NameThenLengthOctets
  {
    var name, length := NameThenLength[0], NameThenLength[1];
    assert WellFormed(name) && WellFormed(length);
    assert U16Octets(7) == [0x00, 0x07];
    assert U32Octets(42) == [0x00, 0x00, 0x00, 0x2a];
    assert NameThenLength[1..] == [length] && [length][1..] == [];
    assert EncodeAll([length]) == Encode(length) + EncodeAll([]);
  }

  /** The source's Unicode arithmetic breaks the round trip: the Name header
      of NameThenLength is sized 2 * 7 - 1 = 13 bytes, more than the frame
      holds, so the block decodes, as written, to a single cut record (which
      keeps the reported length 4) and the
      Length header is lost; the corrected rule recovers both headers. */
  lemma UnicodeAsWrittenLosesNextHeader()
    ensures AllWellFormed(NameThenLength)
    ensures Headers(NameThenLengthOctets, 0, AsWritten) == Parsed([Cut(0x01, Some(4), 10, 9)], 3)
    ensures Headers(NameThenLengthOctets, 0, Corrected) == Parsed(Entries(NameThenLength), 12)
  {
    NameThenLengthEncoding();
    var d := NameThenLengthOctets;
    assert Be16(d[1], d[2]) == 7;
    assert HeaderAt(d, 0, AsWritten) == Stop(Cut(0x01, Some(4), 10, 9), 3);
    HeadersStop(d, 0, AsWritten, Cut(0x01, Some(4), 10, 9), 3);
    HeadersRoundTrip(d, 0, NameThenLength, Corrected);
  }
}
