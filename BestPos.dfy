/** The BESTPOS frame as the receiver client reads it out of a sample buffer:
    a 28-byte header at offset 0 and a position record at offset header_len,
    both read at fixed byte offsets in little-endian order. Floating-point
    fields are kept as their raw 32- or 64-bit patterns. */
module BestPos {
  import opened Bytes

  /** Size of the header: its fields end at byte 28 and need no padding. */
  const HeaderSize: nat := 28
  /** Bytes covered by the fields of the position record (crc ends at byte 76). */
  const RecordSize: nat := 76
  /** Offset of header_len inside the header. */
  const HeaderLenOffset: nat := 3

  type Bytes3 = s: seq<U8> | |s| == 3 witness [0, 0, 0]
  type Bytes4 = s: seq<U8> | |s| == 4 witness [0, 0, 0, 0]
  /** Raw bit pattern of an IEEE-754 single. */
  type Float32Bits = U32
  /** Raw bit pattern of an IEEE-754 double. */
  type Float64Bits = U64

  datatype BestPosHeader = BestPosHeader(
    sync: Bytes3,          // bytes 0-2
    header_len: U8,        // byte 3
    msg_id: U16,           // bytes 4-5
    msg_type: U8,          // byte 6
    reserved0: U8,         // byte 7
    msg_len: U16,          // bytes 8-9
    reserved1: U16,        // bytes 10-11
    idle_time: U8,         // byte 12
    quality: U8,           // byte 13
    week: U16,             // bytes 14-15
    ms: U32,               // bytes 16-19
    reserved2: U32,        // bytes 20-23
    diff_sec_gps: U16,     // bytes 24-25
    reserved3: U16         // bytes 26-27
  )

  datatype BestPosMsg = BestPosMsg(
    sol_status: U32,           // bytes 0-3
    pos_type: U32,             // bytes 4-7
    lat: Float64Bits,          // bytes 8-15
    lon: Float64Bits,          // bytes 16-23
    hgt: Float64Bits,          // bytes 24-31
    undulation: Float32Bits,   // bytes 32-35
    datum: U32,                // bytes 36-39
    lat_d: Float32Bits,        // bytes 40-43
    lon_d: Float32Bits,        // bytes 44-47
    hgt_d: Float32Bits,        // bytes 48-51
    stn_id: Bytes4,            // bytes 52-55
    diff_age: Float32Bits,     // bytes 56-59
    sol_age: Float32Bits,      // bytes 60-63
    tra_count: U8,             // byte 64
    sol_count: U8,             // byte 65
    reserved: Bytes3,          // bytes 66-68
    ext_sol_stat: U8,          // byte 69
    galilen_mask: U8,          // byte 70
    mask: U8,                  // byte 71
    crc: U32                   // bytes 72-75
  )

  /** One sample as the decoder sees it: the header and the record read out of it. */
  datatype Frame = Frame(header: BestPosHeader, msg: BestPosMsg)

  /** The header view of a buffer: fixed offsets from byte 0. */
  function DecodeHeader(s: seq<U8>): BestPosHeader
    requires |s| >= HeaderSize
  {
    BestPosHeader(
      s[0..3], s[3], U16At(s, 4), s[6], s[7], U16At(s, 8), U16At(s, 10),
      s[12], s[13], U16At(s, 14), U32At(s, 16), U32At(s, 20), U16At(s, 24), U16At(s, 26))
  }

  /** The record view of a 76-byte window: fixed offsets from the window's start. */
  function DecodeRecord(w: seq<U8>): BestPosMsg
    requires |w| == RecordSize
  {
    BestPosMsg(
      U32At(w, 0), U32At(w, 4), U64At(w, 8), U64At(w, 16), U64At(w, 24),
      U32At(w, 32), U32At(w, 36), U32At(w, 40), U32At(w, 44), U32At(w, 48),
      w[52..56], U32At(w, 56), U32At(w, 60), w[64], w[65], w[66..69],
      w[69], w[70], w[71], U32At(w, 72))
  }

  /** The record view of a buffer when the record is taken to start at offset off. */
  function DecodeMsgAt(s: seq<U8>, off: nat): BestPosMsg
    requires off + RecordSize <= |s|
  {
    DecodeRecord(s[off..off + RecordSize])
  }

  /** What the client needs of a buffer so that both views stay inside it:
      the header fits, and the record at header_len fits. The client itself
      checks neither. */
  predicate Readable(s: seq<U8>)
  {
    |s| >= HeaderSize && s[HeaderLenOffset] + RecordSize <= |s|
  }

  /** Both views of one sample buffer: the record is read at the header's header_len. */
  function DecodeFrame(s: seq<U8>): (f: Frame)
    requires Readable(s)
    ensures f.header.header_len == s[HeaderLenOffset]
    ensures f.msg == DecodeMsgAt(s, f.header.header_len)
  {
    Frame(DecodeHeader(s), DecodeMsgAt(s, s[HeaderLenOffset]))
  }

  // ---------------------------------------------------------------------
  // Encoding: the independent reference that the views are checked against.

  /** Byte i of the wire image of a header: the layout table of the header. */
  function HeaderByte(h: BestPosHeader, i: nat): U8
    requires i < HeaderSize
  {
    if i < 3 then h.sync[i]
    else if i == 3 then h.header_len
    else if i < 6 then ToLittleEndian(h.msg_id, 2)[i - 4]
    else if i == 6 then h.msg_type
    else if i == 7 then h.reserved0
    else if i < 10 then ToLittleEndian(h.msg_len, 2)[i - 8]
    else if i < 12 then ToLittleEndian(h.reserved1, 2)[i - 10]
    else if i == 12 then h.idle_time
    else if i == 13 then h.quality
    else if i < 16 then ToLittleEndian(h.week, 2)[i - 14]
    else if i < 20 then ToLittleEndian(h.ms, 4)[i - 16]
    else if i < 24 then ToLittleEndian(h.reserved2, 4)[i - 20]
    else if i < 26 then ToLittleEndian(h.diff_sec_gps, 2)[i - 24]
    else ToLittleEndian(h.reserved3, 2)[i - 26]
  }

  function EncodeHeader(h: BestPosHeader): (s: seq<U8>)
    ensures |s| == HeaderSize
  {
    seq(HeaderSize, i requires 0 <= i < HeaderSize => HeaderByte(h, i))
  }

  /** Byte i of the wire image of a record: the layout table of the record. */
  function RecordByte(m: BestPosMsg, i: nat): U8
    requires i < RecordSize
  {
    if i < 4 then ToLittleEndian(m.sol_status, 4)[i]
    else if i < 8 then ToLittleEndian(m.pos_type, 4)[i - 4]
    else if i < 16 then ToLittleEndian(m.lat, 8)[i - 8]
    else if i < 24 then ToLittleEndian(m.lon, 8)[i - 16]
    else if i < 32 then ToLittleEndian(m.hgt, 8)[i - 24]
    else if i < 36 then ToLittleEndian(m.undulation, 4)[i - 32]
    else if i < 40 then ToLittleEndian(m.datum, 4)[i - 36]
    else if i < 44 then ToLittleEndian(m.lat_d, 4)[i - 40]
    else if i < 48 then ToLittleEndian(m.lon_d, 4)[i - 44]
    else if i < 52 then ToLittleEndian(m.hgt_d, 4)[i - 48]
    else if i < 56 then m.stn_id[i - 52]
    else if i < 60 then ToLittleEndian(m.diff_age, 4)[i - 56]
    else if i < 64 then ToLittleEndian(m.sol_age, 4)[i - 60]
    else if i == 64 then m.tra_count
    else if i == 65 then m.sol_count
    else if i < 69 then m.reserved[i - 66]
    else if i == 69 then m.ext_sol_stat
    else if i == 70 then m.galilen_mask
    else if i == 71 then m.mask
    else ToLittleEndian(m.crc, 4)[i - 72]
  }

  function EncodeRecord(m: BestPosMsg): (s: seq<U8>)
    ensures |s| == RecordSize
  {
    seq(RecordSize, i requires 0 <= i < RecordSize => RecordByte(m, i))
  }

  /** A field whose bytes are the n-byte encoding of v reads back as v. */
  lemma FieldPlaced(s: seq<U8>, i: nat, n: nat, v: nat)
    requires i + n <= |s| && v < Pow256(n)
    requires forall k :: 0 <= k < n ==> s[i + k] == ToLittleEndian(v, n)[k]
    ensures FieldAt(s, i, n) == v
  {
    assert s[i..i + n] == ToLittleEndian(v, n);
    DecodeEncode(v, n);
  }

  lemma {:induction false} HeaderRoundTrip(h: BestPosHeader)
    ensures DecodeHeader(EncodeHeader(h)) == h
  {
    var s := EncodeHeader(h);
    assert s[0..3] == h.sync;
    FieldPlaced(s, 4, 2, h.msg_id);
    FieldPlaced(s, 8, 2, h.msg_len);
    FieldPlaced(s, 10, 2, h.reserved1);
    FieldPlaced(s, 14, 2, h.week);
    FieldPlaced(s, 16, 4, h.ms);
    FieldPlaced(s, 20, 4, h.reserved2);
    FieldPlaced(s, 24, 2, h.diff_sec_gps);
    FieldPlaced(s, 26, 2, h.reserved3);
  }

  /** The solution words and the three position words read back. */
  lemma RecordPositionFields(m: BestPosMsg)
    ensures U32At(EncodeRecord(m), 0) == m.sol_status && U32At(EncodeRecord(m), 4) == m.pos_type
    ensures U64At(EncodeRecord(m), 8) == m.lat && U64At(EncodeRecord(m), 16) == m.lon
    ensures U64At(EncodeRecord(m), 24) == m.hgt
  {
    var w := EncodeRecord(m);
    FieldPlaced(w, 0, 4, m.sol_status);
    FieldPlaced(w, 4, 4, m.pos_type);
    FieldPlaced(w, 8, 8, m.lat);
    FieldPlaced(w, 16, 8, m.lon);
    FieldPlaced(w, 24, 8, m.hgt);
  }

  /** The undulation, datum and standard-deviation words read back. */
  lemma RecordDeviationFields(m: BestPosMsg)
    ensures U32At(EncodeRecord(m), 32) == m.undulation && U32At(EncodeRecord(m), 36) == m.datum
    ensures U32At(EncodeRecord(m), 40) == m.lat_d && U32At(EncodeRecord(m), 44) == m.lon_d
    ensures U32At(EncodeRecord(m), 48) == m.hgt_d
  {
    var w := EncodeRecord(m);
    FieldPlaced(w, 32, 4, m.undulation);
    FieldPlaced(w, 36, 4, m.datum);
    FieldPlaced(w, 40, 4, m.lat_d);
    FieldPlaced(w, 44, 4, m.lon_d);
    FieldPlaced(w, 48, 4, m.hgt_d);
  }

  /** The station, age, count, mask and crc fields read back. */
  lemma RecordTrailingFields(m: BestPosMsg)
    ensures EncodeRecord(m)[52..56] == m.stn_id
    ensures U32At(EncodeRecord(m), 56) == m.diff_age && U32At(EncodeRecord(m), 60) == m.sol_age
    ensures EncodeRecord(m)[64] == m.tra_count && EncodeRecord(m)[65] == m.sol_count
    ensures EncodeRecord(m)[66..69] == m.reserved
    ensures EncodeRecord(m)[69] == m.ext_sol_stat && EncodeRecord(m)[70] == m.galilen_mask
    ensures EncodeRecord(m)[71] == m.mask
    ensures U32At(EncodeRecord(m), 72) == m.crc
  {
    var w := EncodeRecord(m);
    assert w[52..56] == m.stn_id;
    FieldPlaced(w, 56, 4, m.diff_age);
    FieldPlaced(w, 60, 4, m.sol_age);
    assert w[66..69] == m.reserved;
    FieldPlaced(w, 72, 4, m.crc);
  }

  lemma {:induction false} RecordRoundTrip(m: BestPosMsg)
    ensures DecodeRecord(EncodeRecord(m)) == m
  {
    RecordPositionFields(m);
    RecordDeviationFields(m);
    RecordTrailingFields(m);
  }

  /** A frame written as header, filler up to header_len, record and any
      trailing bytes decodes to the header and record that were written. */
  lemma {:induction false} FrameRoundTrip(h: BestPosHeader, gap: seq<U8>, m: BestPosMsg, tail: seq<U8>)
    requires h.header_len >= HeaderSize && |gap| == h.header_len - HeaderSize
    ensures Readable(EncodeHeader(h) + gap + EncodeRecord(m) + tail)
    ensures DecodeFrame(EncodeHeader(h) + gap + EncodeRecord(m) + tail) == Frame(h, m)
  {
    var s := EncodeHeader(h) + gap + EncodeRecord(m) + tail;
    var hs := EncodeHeader(h);
    assert s[HeaderLenOffset] == hs[HeaderLenOffset] == h.header_len;
    assert s[..HeaderSize] == hs;
    HeaderLocality(s, hs);
    HeaderRoundTrip(h);
    assert s[h.header_len..h.header_len + RecordSize] == EncodeRecord(m);
    RecordRoundTrip(m);
  }

  /** The header view depends on bytes 0 to 27 only. */
  lemma {:induction false} HeaderLocality(s: seq<U8>, t: seq<U8>)
    requires |s| >= HeaderSize && |t| >= HeaderSize && s[..HeaderSize] == t[..HeaderSize]
    ensures DecodeHeader(s) == DecodeHeader(t)
  {
    HeaderOfPrefix(s);
    HeaderOfPrefix(t);
  }

  /** The header view of a buffer is the header view of its first 28 bytes. */
  lemma {:induction false} HeaderOfPrefix(s: seq<U8>)
    requires |s| >= HeaderSize
    ensures DecodeHeader(s[..HeaderSize]) == DecodeHeader(s)
  {
    var p := s[..HeaderSize];
    assert p[0..3] == s[0..3];
    FieldInWindow(s, 0, HeaderSize, 4, 2);
    FieldInWindow(s, 0, HeaderSize, 8, 2);
    FieldInWindow(s, 0, HeaderSize, 10, 2);
    FieldInWindow(s, 0, HeaderSize, 14, 2);
    FieldInWindow(s, 0, HeaderSize, 16, 4);
    FieldInWindow(s, 0, HeaderSize, 20, 4);
    FieldInWindow(s, 0, HeaderSize, 24, 2);
    FieldInWindow(s, 0, HeaderSize, 26, 2);
    assert s[0..HeaderSize] == p;
  }

  /** A field read inside a window is the field at the shifted offset of the buffer. */
  lemma FieldInWindow(s: seq<U8>, off: nat, len: nat, i: nat, n: nat)
    requires off + len <= |s| && i + n <= len
    ensures FieldAt(s[off..off + len], i, n) == FieldAt(s, off + i, n)
  {
    var w := s[off..off + len];
    var inner, outer := w[i..i + n], s[off + i..off + i + n];
    forall k | 0 <= k < n
      ensures inner[k] == outer[k]
    {
      assert w[i + k] == s[off + i + k];
    }
    assert inner == outer;
  }

  /** Where the printed record fields sit in the sample buffer: pos_type is
      the word at header_len + 4, the position the three 8-byte words at
      header_len + 8, + 16 and + 24, and the deviations the words at
      header_len + 40, + 44 and + 48. */
  lemma {:induction false} RecordFieldOffsets(s: seq<U8>)
    requires Readable(s)
    ensures var f, hl := DecodeFrame(s), s[HeaderLenOffset];
      f.msg.pos_type == LittleEndian(s[hl + 4..hl + 8])
      && f.msg.lat == LittleEndian(s[hl + 8..hl + 16])
      && f.msg.lon == LittleEndian(s[hl + 16..hl + 24])
      && f.msg.hgt == LittleEndian(s[hl + 24..hl + 32])
      && f.msg.lat_d == LittleEndian(s[hl + 40..hl + 44])
      && f.msg.lon_d == LittleEndian(s[hl + 44..hl + 48])
      && f.msg.hgt_d == LittleEndian(s[hl + 48..hl + 52])
  {
    var hl: nat := s[HeaderLenOffset];
    FieldInWindow(s, hl, RecordSize, 4, 4);
    FieldInWindow(s, hl, RecordSize, 8, 8);
    FieldInWindow(s, hl, RecordSize, 16, 8);
    FieldInWindow(s, hl, RecordSize, 24, 8);
    FieldInWindow(s, hl, RecordSize, 40, 4);
    FieldInWindow(s, hl, RecordSize, 44, 4);
    FieldInWindow(s, hl, RecordSize, 48, 4);
  }

  /** Changing a byte that lies neither in the header nor in the record
      window at header_len leaves the decoded frame unchanged; changing a
      byte past the header (other than inside the window) leaves the header
      unchanged. */
  lemma FrameIgnoresOtherBytes(s: seq<U8>, i: nat, b: U8)
    requires Readable(s) && HeaderSize <= i < |s|
    requires !(s[HeaderLenOffset] <= i < s[HeaderLenOffset] + RecordSize)
    ensures Readable(s[i := b]) && DecodeFrame(s[i := b]) == DecodeFrame(s)
  {
  }

  // ---------------------------------------------------------------------
  // A checked decoder. The client validates nothing; this variant is a
  // strengthening that performs the checks a robust client would make,
  // and is proved to agree with the unchecked views whenever it accepts.

  /** The BESTPOS binary sync marker. */
  const Sync: seq<U8> := [0xAA, 0x44, 0x12]

  datatype DecodeError = BadSync | HeaderOutOfRange | PayloadOutOfRange

  datatype Checked = Ok(frame: Frame) | Err(error: DecodeError)

  function Min(a: nat, b: nat): nat { if a <= b then a else b }

  /** Decodes only if the sync marker is present, the record at header_len
      ends within the first validLen bytes of the buffer, and header_len
      does not make the record overlap the header; the accepted frame is
      the one the client's views give. */
  function DecodeChecked(s: seq<U8>, validLen: nat): (r: Checked)
    ensures r.Ok? <==>
      Min(validLen, |s|) >= HeaderSize && s[..|Sync|] == Sync
      && HeaderSize <= s[HeaderLenOffset] && s[HeaderLenOffset] + RecordSize <= Min(validLen, |s|)
    ensures r.Ok? ==> Readable(s) && r.frame == DecodeFrame(s)
    ensures Min(validLen, |s|) >= |Sync| && s[..|Sync|] != Sync ==> r == Err(BadSync)
    ensures (Min(validLen, |s|) > HeaderLenOffset && s[..|Sync|] == Sync
             && s[HeaderLenOffset] + RecordSize > Min(validLen, |s|)) ==> r == Err(PayloadOutOfRange)
    ensures (Min(validLen, |s|) > HeaderLenOffset && s[..|Sync|] == Sync
             && s[HeaderLenOffset] + RecordSize <= Min(validLen, |s|)
             && s[HeaderLenOffset] < HeaderSize) ==> r == Err(HeaderOutOfRange)
  {
    var n := Min(validLen, |s|);
    if n < |Sync| || s[..|Sync|] != Sync then Err(BadSync)
    else if n <= HeaderLenOffset || s[HeaderLenOffset] + RecordSize > n then Err(PayloadOutOfRange)
    else if s[HeaderLenOffset] < HeaderSize then Err(HeaderOutOfRange)
    else Ok(DecodeFrame(s))
  }

  /** The checked decoder never looks at a byte at or past validLen: cutting
      the buffer there does not change its answer. */
  lemma {:induction false} CheckedReadsOnlyValidPrefix(s: seq<U8>, validLen: nat)
    ensures DecodeChecked(s[..Min(validLen, |s|)], validLen) == DecodeChecked(s, validLen)
  {
    var n := Min(validLen, |s|);
    var t := s[..n];
    assert Min(validLen, |t|) == n;
    if n >= |Sync| {
      assert t[..|Sync|] == s[..|Sync|];
    }
    if DecodeChecked(s, validLen).Ok? {
      var hl: nat := s[HeaderLenOffset];
      assert t[..HeaderSize] == s[..HeaderSize];
      HeaderLocality(s, t);
      assert t[hl..hl + RecordSize] == s[hl..hl + RecordSize];
    }
  }
}
