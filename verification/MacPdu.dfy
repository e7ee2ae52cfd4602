/**
 The MAC PDU (mac_encode and mac_decode of mac_msg_parsing.c): subheaders with a logical
 channel id and a length, a padding subheader, then the payloads in order.
*/
module MacPdu {
  import opened Checksum

  // bytes holds the bytes that count; the program keeps them in a buffer of 2048.
  datatype Sdu = Sdu(lcid: byte, len: nat, bytes: seq<byte>)

  datatype Range = Range(lcid: byte, start: nat, length: nat)

  const PADDING: byte := 0x1F
  const MAX_HEADERS := 100
  const MAX_SDU := 2048

  // The length of a control element, or 0.
  function LcidLength(lcid: int): nat {
    match lcid
    case 26 => 1
    case 27 => 2
    case 28 => 1
    case 29 => 1
    case 30 => 3
    case _ => 0
  }

  // ------------------------------------------------------------ encoding

  // An SDU on a logical channel, or a control element of the length its receiver expects.
  predicate Sendable(s: Sdu) {
    |s.bytes| == s.len && ((s.lcid <= 10 && s.len <= MAX_SDU) || (26 <= s.lcid <= 30 && s.len == LcidLength(s.lcid)))
  }

  // The subheader of one SDU: the extension bit is always set.
  function Subheader(s: Sdu): (h: seq<byte>)
    ensures 1 <= |h| <= 3
  {
    if s.lcid > 10 then [32 + s.lcid % 32]
    else if s.len > 127 then [32 + s.lcid % 32, 128 + s.len / 256 % 128, s.len % 256]
    else [32 + s.lcid % 32, s.len]
  }

  function Subheaders(ss: seq<Sdu>, n: nat): (h: seq<byte>)
    requires n <= |ss|
  {
    if n == 0 then [] else Subheaders(ss, n - 1) + Subheader(ss[n - 1])
  }

  function Payloads(ss: seq<Sdu>, n: nat): (p: seq<byte>)
    requires n <= |ss|
  {
    if n == 0 then [] else Payloads(ss, n - 1) + ss[n - 1].bytes
  }

  function Pdu(ss: seq<Sdu>): (b: seq<byte>) {
    if ss == [] then [] else Subheaders(ss, |ss|) + [PADDING] + Payloads(ss, |ss|)
  }

  // The PDU fits a buffer, with room after the subheaders.
  predicate Fits(ss: seq<Sdu>, size: nat) {
    |Pdu(ss)| <= size && |Subheaders(ss, |ss|)| + 1 < size
  }

  // A position moves on by one, up to a bound.
  function Inc(cnt: nat, bound: nat): nat {
    if cnt + 1 > bound then bound else cnt + 1
  }

  // ------------------------------------------------------------ decoding

  // The header of an SDU, cut off at the end of the data.
  function Clip(lcid: byte, start: nat, length: nat, len: nat): (r: Range)
    ensures r.start <= len && r.start + r.length <= len
  {
    var s, l := if start < len then start else len, if length < MAX_SDU then length else MAX_SDU;
    Range(lcid, s, if s + l > len then len - s else l)
  }

  // The length that a subheader gives, and the position after it.
  function LengthField(b: seq<byte>, len: nat, i: nat, start: nat): (r: (nat, nat))
    requires i < len && len + 2 <= |b|
    ensures i < r.1 <= i + 3
  {
    var lcid, e, fixed := b[i] as int % 32, b[i] as int / 32 % 2, LcidLength(b[i] as int % 32);
    if fixed != 0 then (fixed, i + 1)
    else if e == 0 then ((len - start - (i + 1)) % WRAP, i + 1)
    else if b[i + 1] < 128 then (b[i + 1], i + 2)
    else ((b[i + 1] as int % 128) * 256 + b[i + 2] as int, i + 3)
  }

  // The headers found from position i on, and the position of the payload.
  function Headers(b: seq<byte>, len: nat, i: nat, start: nat, hs: seq<Range>): (r: (seq<Range>, nat))
    requires len + 2 <= |b| && |hs| <= MAX_HEADERS
    ensures |r.0| <= MAX_HEADERS
    decreases len - i
  {
    if i >= len || |hs| >= MAX_HEADERS then (hs, i)
    else
      var lcid, e := b[i] as int % 32, b[i] as int / 32 % 2;
      if lcid == 31 then (if e == 1 then Headers(b, len, i + 1, start, hs) else (hs, i + 1))
      else
        var (length, j) := LengthField(b, len, i, start);
        var hs' := if lcid <= 10 then hs + [Clip(lcid, start, length, len)] else hs;
        if e == 1 then Headers(b, len, j, start + length, hs') else (hs', j)
  }

  // The SDU that header h describes, where the payload starts at position i.
  function Extracted(b: seq<byte>, len: nat, i: nat, h: Range): (s: Sdu)
    requires len <= |b|
  {
    var st := if i + h.start < len then i + h.start else len;
    var n := if h.length < MAX_SDU then h.length else MAX_SDU;
    Sdu(h.lcid, h.length, b[st..st + if n < len - st then n else len - st])
  }

  function ExtractAll(b: seq<byte>, len: nat, i: nat, hs: seq<Range>): (ss: seq<Sdu>)
    requires len <= |b|
    ensures |ss| == |hs|
  {
    if hs == [] then [] else ExtractAll(b, len, i, hs[..|hs| - 1]) + [Extracted(b, len, i, hs[|hs| - 1])]
  }

  function Decoded(b: seq<byte>, len: nat): (ss: seq<Sdu>)
    requires len + 2 <= |b|
    ensures |ss| <= MAX_HEADERS
  {
    var (hs, i) := Headers(b, len, 0, 0, []);
    ExtractAll(b, len, i, hs)
  }

  // The SDUs on logical channels; control elements are dropped.
  function Kept(ss: seq<Sdu>, n: nat): (ks: seq<Sdu>)
    requires n <= |ss|
    ensures |ks| <= n
  {
    if n == 0 then [] else Kept(ss, n - 1) + (if ss[n - 1].lcid <= 10 then [ss[n - 1]] else [])
  }

  // ------------------------------------------------------------ the formats

  /** The subheader: the channel with the extension bit, and for channels up to 10 a length of one byte or of two. */
  lemma SubheaderFormat(s: Sdu)
    requires Sendable(s)
    ensures s.lcid > 10 ==> Subheader(s) == [0x20 + s.lcid]
    ensures s.lcid <= 10 && s.len <= 0x7F ==> Subheader(s) == [0x20 + s.lcid, s.len]
    ensures s.lcid <= 10 && s.len > 0x7F ==> Subheader(s) == [0x20 + s.lcid, 0x80 + s.len / 0x100, s.len % 0x100]
  {
  }

  /** The control elements and their lengths: power headroom, C-RNTI, and truncated, short and long buffer status. */
  lemma ControlLengths(lcid: nat)
    ensures LcidLength(26) == 1 && LcidLength(27) == 2 && LcidLength(28) == 1 && LcidLength(29) == 1 && LcidLength(30) == 3
    ensures lcid < 26 || lcid > 30 ==> LcidLength(lcid) == 0
  {
  }

  /** One SDU with all that is around it. */
  lemma OneSduPdu(s: Sdu)
    requires s.lcid <= 10 && s.len == |s.bytes| <= 0x7F
    ensures Pdu([s]) == [0x20 + s.lcid, s.len, 0x1F] + s.bytes
  {
    assert Subheaders([s], 1) == Subheaders([s], 0) + Subheader(s);
    assert Payloads([s], 1) == Payloads([s], 0) + s.bytes;
  }

  /**
   What is made of one subheader at position i, b0 to b2 being the bytes there. Padding is skipped; the length is the
   control element's, or what is left if the extension bit is not set, or given by one byte or two; only
   logical channels up to 10 are kept, and what they give as length is cut off at 2048 and at the end of the data.
  */
  lemma SubheaderMeans(b: seq<byte>, len: nat, i: nat, start: nat, hs: seq<Range>)
    requires len + 2 <= |b| && i < len && |hs| < 100
    ensures var b0, b1, b2 := b[i] as int, b[i + 1] as int, b[i + 2] as int;
            var lcid, more := b0 % 32, b0 / 32 % 2 == 1;
            var (length, next) :=
              if lcid == 31 then (0, i + 1) else if lcid == 27 then (2, i + 1) else if lcid == 30 then (3, i + 1)
              else if 26 <= lcid then (1, i + 1) else if !more then ((len - start - (i + 1)) % 0x1_0000_0000, i + 1)
              else if b1 < 128 then (b1, i + 2) else ((b1 - 128) * 256 + b2, i + 3);
            var from := if start < len then start else len;
            var most := if length < 2048 then length else 2048;
            var hs' := if lcid <= 10 then hs + [Range(lcid, from, if most < len - from then most else len - from)] else hs;
            Headers(b, len, i, start, hs) == if more then Headers(b, len, next, start + length, hs') else (hs', next)
  {
    LengthMeans(b, len, i, start);
    ClipMeans(b[i] as int % 32, start, LengthField(b, len, i, start).0, len);
    hide LengthField, Clip;
  }

  lemma LengthMeans(b: seq<byte>, len: nat, i: nat, start: nat)
    requires len + 2 <= |b| && i < len
    ensures var b0, b1, b2 := b[i] as int, b[i + 1] as int, b[i + 2] as int;
            var lcid := b0 % 32;
            lcid != 31 ==>
              (LengthField(b, len, i, start) ==
               if lcid == 27 then (2, i + 1) else if lcid == 30 then (3, i + 1) else if 26 <= lcid then (1, i + 1)
               else if b0 / 32 % 2 == 0 then ((len - start - (i + 1)) % 0x1_0000_0000, i + 1)
               else if b1 < 128 then (b1, i + 2) else ((b1 - 128) * 256 + b2, i + 3))
  {
  }

  lemma ClipMeans(lcid: byte, start: nat, length: nat, len: nat)
    ensures var from := if start < len then start else len;
            var most := if length < 2048 then length else 2048;
            Clip(lcid, start, length, len) == Range(lcid, from, if most < len - from then most else len - from)
  {
  }

  lemma HeadersStop(b: seq<byte>, len: nat, i: nat, start: nat, hs: seq<Range>)
    requires len + 2 <= |b| && |hs| <= 100 && (i >= len || |hs| == 100)
    ensures Headers(b, len, i, start, hs) == (hs, i)
  {
  }

  /** An SDU's bytes are those from its start on, up to 2048 and to the end of the data; its length is the one of its header. */
  lemma ExtractedIs(b: seq<byte>, len: nat, i: nat, h: Range)
    requires len <= |b|
    ensures i + h.start >= len ==> Extracted(b, len, i, h) == Sdu(h.lcid, h.length, [])
    ensures i + h.start + h.length <= len && h.length <= 2048 ==> Extracted(b, len, i, h) == Sdu(h.lcid, h.length, b[i + h.start..i + h.start + h.length])
    ensures i + h.start < len < i + h.start + h.length && h.length <= 2048 ==> Extracted(b, len, i, h) == Sdu(h.lcid, h.length, b[i + h.start..len])
  {
  }

  // ------------------------------------------------------------ writes behind the array

  // The slot into which SDU j is stored: the index stops at outlen, not below it.
  function Slot(j: nat, outlen: nat): (k: nat) {
    if j < outlen then j else outlen
  }

  // The number of subheaders of logical channels from position i on.
  function ChannelHeaders(b: seq<byte>, len: nat, i: nat): (n: nat)
    requires len + 2 <= |b|
    decreases len - i
  {
    if i >= len then 0
    else
      var lcid, e := b[i] as int % 32, b[i] as int / 32 % 2;
      var j := if lcid == 31 then i + 1 else LengthField(b, len, i, 0).1;
      (if lcid <= 10 then 1 else 0) + if e == 1 then ChannelHeaders(b, len, j) else 0
  }

  lemma {:induction false} HeadersCount(b: seq<byte>, len: nat, i: nat, start: nat, hs: seq<Range>)
    requires len + 2 <= |b| && |hs| <= MAX_HEADERS
    ensures |Headers(b, len, i, start, hs).0| == Slot(|hs| + ChannelHeaders(b, len, i), MAX_HEADERS)
    decreases len - i
  {
    hide Clip;
    if i < len && |hs| < MAX_HEADERS {
      var lcid, e := b[i] as int % 32, b[i] as int / 32 % 2;
      if lcid == 31 {
        if e == 1 {
          HeadersCount(b, len, i + 1, start, hs);
        }
      } else {
        var (length, j) := LengthField(b, len, i, start);
        var hs' := if lcid <= 10 then hs + [Clip(lcid, start, length, len)] else hs;
        if e == 1 {
          HeadersCount(b, len, j, start + length, hs');
        }
      }
    }
  }

  /**
   An array of outlen slots, which is what every caller passes, is enough exactly if the PDU has no more subheaders of
   logical channels than that, or the decoder stops before.
  */
  lemma StoresInsideIff(b: seq<byte>, len: nat, outlen: nat)
    requires len + 2 <= |b|
    ensures (forall j :: 0 <= j < |Decoded(b, len)| ==> Slot(j, outlen) < outlen) <==> ChannelHeaders(b, len, 0) <= outlen || MAX_HEADERS <= outlen
  {
    HeadersCount(b, len, 0, 0, []);
    var n := |Decoded(b, len)|;
    assert n == Slot(ChannelHeaders(b, len, 0), MAX_HEADERS);
    if outlen < n {
      assert Slot(outlen, outlen) == outlen;
    }
  }

  // n subheaders of empty SDUs on channel 0, and two bytes behind the data.
  function EmptySdus(n: nat): (b: seq<byte>) {
    seq(2 * n + 2, k => if k % 2 == 0 then 32 else 0)
  }

  lemma {:induction false} EmptySdusCount(n: nat, k: nat)
    requires k <= n
    ensures ChannelHeaders(EmptySdus(n), 2 * n, 2 * k) == n - k
    decreases n - k
  {
    if k < n {
      EmptySdusCount(n, k + 1);
      assert EmptySdus(n)[2 * k] == 32 && EmptySdus(n)[2 * k + 1] == 0;
      assert LengthField(EmptySdus(n), 2 * n, 2 * k, 0).1 == 2 * (k + 1);
    }
  }

  /** The callers' array of 64: 130 bytes with 65 subheaders make the program write behind it. */
  lemma SixtyFiveTooMany()
    ensures !forall j :: 0 <= j < |Decoded(EmptySdus(65), 130)| ==> Slot(j, 64) < 64
  {
    EmptySdusCount(65, 0);
    StoresInsideIff(EmptySdus(65), 130, 64);
  }

  // ------------------------------------------------------------ the round trip

  // The headers that a decoder should find for the first n SDUs.
  function RangesOf(ss: seq<Sdu>, n: nat): (hs: seq<Range>)
    requires n <= |ss|
    ensures |hs| == |Kept(ss, n)|
  {
    if n == 0 then []
    else RangesOf(ss, n - 1) + (if ss[n - 1].lcid <= 10 then [Range(ss[n - 1].lcid, |Payloads(ss, n - 1)|, ss[n - 1].len)] else [])
  }

  // b holds the subheaders from position i on, read from one SDU.
  lemma HeaderStep(b: seq<byte>, len: nat, i: nat, start: nat, hs: seq<Range>, s: Sdu)
    requires len + 2 <= |b| && Sendable(s) && i + |Subheader(s)| <= len && b[i..i + |Subheader(s)|] == Subheader(s)
    requires start + s.len <= len && |hs| < MAX_HEADERS
    ensures Headers(b, len, i, start, hs) ==
            Headers(b, len, i + |Subheader(s)|, start + s.len, if s.lcid <= 10 then hs + [Range(s.lcid, start, s.len)] else hs)
  {
    var h := Subheader(s);
    assert b[i] == b[i..i + |h|][0] == h[0];
    assert |h| > 1 ==> b[i + 1] == b[i..i + |h|][1] == h[1];
    assert |h| > 2 ==> b[i + 2] == b[i..i + |h|][2] == h[2];
    LengthFound(b, len, i, start, s);
  }

  lemma LengthFound(b: seq<byte>, len: nat, i: nat, start: nat, s: Sdu)
    requires len + 2 <= |b| && Sendable(s) && i < len && b[i] == Subheader(s)[0]
    requires |Subheader(s)| > 1 ==> b[i + 1] == Subheader(s)[1]
    requires |Subheader(s)| > 2 ==> b[i + 2] == Subheader(s)[2]
    ensures b[i] as int % 32 == s.lcid && b[i] as int / 32 % 2 == 1
    ensures LengthField(b, len, i, start) == (s.len, i + |Subheader(s)|)
  {
    if s.lcid <= 10 {
      LongLength(s.len);
    }
  }

  lemma LongLength(n: nat)
    requires n <= MAX_SDU
    ensures n / 256 % 128 == n / 256 && (128 + n / 256) % 128 == n / 256 && n / 256 * 256 + n % 256 == n
  {
  }

  lemma {:induction false} PrefixGrows(ss: seq<Sdu>, m: nat, n: nat)
    requires m <= n <= |ss|
    ensures Subheaders(ss, m) <= Subheaders(ss, n) && Payloads(ss, m) <= Payloads(ss, n) && |Kept(ss, m)| <= |Kept(ss, n)|
  {
    if m < n {
      PrefixGrows(ss, m, n - 1);
    }
  }

  // A prefix of a prefix of b, seen in b.
  lemma Slice(b: seq<byte>, whole: seq<byte>, part: seq<byte>, last: seq<byte>, o: nat)
    requires o + |whole| <= |b| && b[o..o + |whole|] == whole && part + last <= whole
    ensures b[o + |part|..o + |part| + |last|] == last
  {
    var m := part + last;
    assert b[o..o + |whole|][..|m|] == m;
    assert b[o + |part|..o + |part| + |last|] == m[|part|..];
  }

  // After n of m subheaders the decoder stands where it should, if it did not stop before.
  lemma {:induction false} HeadersRead(b: seq<byte>, len: nat, ss: seq<Sdu>, n: nat, m: nat)
    requires len + 2 <= |b| && n <= m <= |ss| && (forall k :: 0 <= k < |ss| ==> Sendable(ss[k])) && (n > 0 ==> |Kept(ss, n - 1)| < MAX_HEADERS)
    requires Subheaders(ss, m) <= b && |Subheaders(ss, m)| <= len && |Payloads(ss, m)| <= len
    ensures |RangesOf(ss, n)| <= MAX_HEADERS
    ensures Headers(b, len, 0, 0, []) == Headers(b, len, |Subheaders(ss, n)|, |Payloads(ss, n)|, RangesOf(ss, n))
  {
    hide Subheader, Headers, Sendable;
    PrefixGrows(ss, n, m);
    if n > 0 {
      if n > 1 {
        PrefixGrows(ss, n - 2, n - 1);
      }
      HeadersRead(b, len, ss, n - 1, m);
      PrefixGrows(ss, n - 1, m);
      var i, s, all := |Subheaders(ss, n - 1)|, ss[n - 1], Subheaders(ss, m);
      assert b[0..0 + |all|] == all;
      Slice(b, all, Subheaders(ss, n - 1), Subheader(s), 0);
      PrefixLengths(ss, n);
      assert s.lcid > 10 ==> RangesOf(ss, n) == RangesOf(ss, n - 1);
      HeaderStep(b, len, i, |Payloads(ss, n - 1)|, RangesOf(ss, n - 1), s);
    }
  }

  lemma ExtractOne(b: seq<byte>, len: nat, i: nat, hs: seq<Range>, h: Range)
    requires len <= |b|
    ensures ExtractAll(b, len, i, hs + [h]) == ExtractAll(b, len, i, hs) + [Extracted(b, len, i, h)]
  {
    assert (hs + [h])[..|hs|] == hs;
  }

  lemma NothingExtracted(b: seq<byte>, len: nat, i: nat)
    requires len <= |b|
    ensures ExtractAll(b, len, i, []) == []
  {
  }

  lemma ExtractedIff(b: seq<byte>, len: nat, i: nat, s: Sdu, o: nat)
    requires len <= |b| && Sendable(s) && s.lcid <= 10 && i + o + s.len <= len
    ensures Extracted(b, len, i, Range(s.lcid, o, s.len)) == s <==> b[i + o..i + o + s.len] == s.bytes
  {
  }

  lemma PrefixLengths(ss: seq<Sdu>, n: nat)
    requires 0 < n <= |ss| && Sendable(ss[n - 1])
    ensures |Subheaders(ss, n)| == |Subheaders(ss, n - 1)| + |Subheader(ss[n - 1])|
    ensures |Payloads(ss, n)| == |Payloads(ss, n - 1)| + ss[n - 1].len
  {
  }

  // Where the payloads of ss were expected, w has the bytes of the first n SDUs on logical channels.
  predicate ReadsAs(ss: seq<Sdu>, w: seq<byte>, n: nat)
    requires n <= |ss| && |Payloads(ss, n)| <= |w|
  {
    n == 0 || (ReadsAs(ss, w, n - 1) && (ss[n - 1].lcid <= 10 ==> w[|Payloads(ss, n - 1)|..|Payloads(ss, n)|] == ss[n - 1].bytes))
  }

  lemma SubSlice(b: seq<byte>, w: seq<byte>, i: nat, o: nat, n: nat)
    requires i + |w| <= |b| && b[i..i + |w|] == w && o + n <= |w|
    ensures b[i + o..i + o + n] == w[o..o + n]
  {
    var x, y := b[i + o..i + o + n], w[o..o + n];
    forall k | 0 <= k < n
      ensures x[k] == y[k]
    {
      assert b[i..i + |w|][o + k] == b[i + o + k];
    }
  }

  lemma ReadStep(ss: seq<Sdu>, w: seq<byte>, n: nat)
    requires 0 < n <= |ss| && Sendable(ss[n - 1]) && |Payloads(ss, n)| <= |w|
    ensures var s, o := ss[n - 1], |Payloads(ss, n - 1)|;
            && |Payloads(ss, n)| == o + s.len
            && RangesOf(ss, n) == (if s.lcid <= 10 then RangesOf(ss, n - 1) + [Range(s.lcid, o, s.len)] else RangesOf(ss, n - 1))
            && Kept(ss, n) == (if s.lcid <= 10 then Kept(ss, n - 1) + [s] else Kept(ss, n - 1))
            && (ReadsAs(ss, w, n) <==> ReadsAs(ss, w, n - 1) && (s.lcid <= 10 ==> w[o..o + s.len] == s.bytes))
  {
  }

  // If the payload is looked for at position i, what comes back depends on the bytes that are there.
  lemma {:induction false} PayloadsReadIff(b: seq<byte>, len: nat, ss: seq<Sdu>, w: seq<byte>, i: nat, n: nat)
    requires len <= |b| && n <= |ss| && (forall k :: 0 <= k < |ss| ==> Sendable(ss[k]))
    requires |Payloads(ss, n)| <= |w| && i + |w| <= len && b[i..i + |w|] == w
    ensures ExtractAll(b, len, i, RangesOf(ss, n)) == Kept(ss, n) <==> ReadsAs(ss, w, n)
  {
    hide Extracted, ExtractAll, Sendable;
    if n > 0 {
      var s, o := ss[n - 1], |Payloads(ss, n - 1)|;
      ReadStep(ss, w, n);
      PayloadsReadIff(b, len, ss, w, i, n - 1);
      hide RangesOf, Kept, ReadsAs, Payloads;
      if s.lcid <= 10 {
        var h := Range(s.lcid, o, s.len);
        SubSlice(b, w, i, o, s.len);
        ExtractOne(b, len, i, RangesOf(ss, n - 1), h);
        ExtractedIff(b, len, i, s, o);
        SameEnds(ExtractAll(b, len, i, RangesOf(ss, n - 1)), Extracted(b, len, i, h), Kept(ss, n - 1), s);
      }
    } else {
      NothingExtracted(b, len, i);
    }
  }

  lemma SameEnds<T>(s: seq<T>, x: T, t: seq<T>, y: T)
    ensures s + [x] == t + [y] <==> s == t && x == y
  {
    if s + [x] == t + [y] {
      assert (s + [x])[..|s|] == s && (t + [y])[..|t|] == t && (s + [x])[|s|] == x;
    }
  }

  lemma {:induction false} PayloadsReadThemselves(ss: seq<Sdu>, n: nat)
    requires n <= |ss|
    ensures |Payloads(ss, n)| <= |Payloads(ss, |ss|)| && ReadsAs(ss, Payloads(ss, |ss|), n)
  {
    PrefixGrows(ss, n, |ss|);
    if n > 0 {
      PayloadsReadThemselves(ss, n - 1);
      var all := Payloads(ss, |ss|);
      Slice(all, all, Payloads(ss, n - 1), ss[n - 1].bytes, 0);
    }
  }

  // The number of SDUs up to the last one on a logical channel.
  function LastKept(ss: seq<Sdu>, n: nat): (m: nat)
    requires n <= |ss|
    ensures m <= n && Kept(ss, m) == Kept(ss, n) && RangesOf(ss, m) == RangesOf(ss, n) && (m > 0 ==> |Kept(ss, m - 1)| + 1 == |Kept(ss, m)|)
  {
    if n == 0 || ss[n - 1].lcid <= 10 then n else LastKept(ss, n - 1)
  }

  /**
   What a decoder takes for payload if it stops after the last SDU on a logical channel: the subheaders of the control
   elements behind it, the padding subheader, and only then the payloads.
  */
  function ReadEarly(ss: seq<Sdu>): (w: seq<byte>)
    ensures |w| > |Payloads(ss, |ss|)|
  {
    PrefixGrows(ss, LastKept(ss, |ss|), |ss|);
    Subheaders(ss, |ss|)[|Subheaders(ss, LastKept(ss, |ss|))|..] + [PADDING] + Payloads(ss, |ss|)
  }

  /**
   Decoding undoes encoding, for any SDUs on logical channels mixed with control elements and any bytes after the PDU,
   exactly if at most 99 are on logical channels, or the bytes fit by chance: with a hundred the decoder stops before the
   padding subheader and takes the bytes that follow the last subheader it has read for payload, and with more it
   drops some.
  */
  lemma RoundTripIff(ss: seq<Sdu>, b: seq<byte>, len: nat)
    requires ss != [] && (forall k :: 0 <= k < |ss| ==> Sendable(ss[k]))
    requires len + 2 <= |b| && |Pdu(ss)| <= len && Pdu(ss) <= b
    ensures Decoded(b, len) == Kept(ss, |ss|) <==>
            |Kept(ss, |ss|)| < MAX_HEADERS || (|Kept(ss, |ss|)| == MAX_HEADERS && ReadsAs(ss, ReadEarly(ss), |ss|))
  {
    if |Kept(ss, |ss|)| < MAX_HEADERS {
      RoundTrip(ss, b, len);
    } else if |Kept(ss, |ss|)| == MAX_HEADERS {
      ExactlyHundred(ss, b, len);
    }
  }

  // The SDUs come back in order if at most 99 are on logical channels.
  lemma RoundTrip(ss: seq<Sdu>, b: seq<byte>, len: nat)
    requires ss != [] && (forall k :: 0 <= k < |ss| ==> Sendable(ss[k])) && |Kept(ss, |ss|)| < MAX_HEADERS
    requires len + 2 <= |b| && |Pdu(ss)| <= len && Pdu(ss) <= b
    ensures Decoded(b, len) == Kept(ss, |ss|)
  {
    hide Headers, Subheaders, Payloads, ExtractAll, Sendable, Kept;
    var n, h, p := |ss|, Subheaders(ss, |ss|), Payloads(ss, |ss|);
    PduParts(b, h, p);
    PrefixGrows(ss, n - 1, n);
    HeadersRead(b, len, ss, n, n);
    PaddingRead(b, len, |h|, |p|, RangesOf(ss, n));
    PayloadsReadThemselves(ss, n);
    PayloadsReadIff(b, len, ss, p, |h| + 1, n);
  }

  lemma ExactlyHundred(ss: seq<Sdu>, b: seq<byte>, len: nat)
    requires ss != [] && (forall k :: 0 <= k < |ss| ==> Sendable(ss[k])) && |Kept(ss, |ss|)| == MAX_HEADERS
    requires len + 2 <= |b| && |Pdu(ss)| <= len && Pdu(ss) <= b
    ensures Decoded(b, len) == Kept(ss, |ss|) <==> ReadsAs(ss, ReadEarly(ss), |ss|)
  {
    hide Headers, Subheaders, Payloads, ExtractAll, Sendable, Kept;
    var n, h, p, m := |ss|, Subheaders(ss, |ss|), Payloads(ss, |ss|), LastKept(ss, |ss|);
    PduParts(b, h, p);
    HeadersRead(b, len, ss, m, n);
    PrefixGrows(ss, m, n);
    var i, w := |Subheaders(ss, m)|, ReadEarly(ss);
    StopsFull(b, len, i, |Payloads(ss, m)|, RangesOf(ss, m));
    assert b[i..i + |w|] == w by {
      assert Pdu(ss) == h + [PADDING] + p;
      assert Pdu(ss)[i..] == w;
      assert b[..|Pdu(ss)|] == Pdu(ss);
    }
    PayloadsReadIff(b, len, ss, w, i, n);
  }

  lemma StopsFull(b: seq<byte>, len: nat, i: nat, start: nat, hs: seq<Range>)
    requires len + 2 <= |b| && |hs| == MAX_HEADERS
    ensures Headers(b, len, i, start, hs) == (hs, i)
  {
  }

  /**
   Without control elements the lists that come back are those of at most 99 SDUs and, by chance, those of a hundred whose
   payload is nothing but copies of the padding subheader.
  */
  lemma ChannelsOnlyIff(ss: seq<Sdu>, b: seq<byte>, len: nat)
    requires ss != [] && forall k :: 0 <= k < |ss| ==> Sendable(ss[k]) && ss[k].lcid <= 10
    requires len + 2 <= |b| && |Pdu(ss)| <= len && Pdu(ss) <= b
    ensures Decoded(b, len) == ss <==>
            |ss| < MAX_HEADERS || (|ss| == MAX_HEADERS && forall k :: 0 <= k < |Payloads(ss, |ss|)| ==> Payloads(ss, |ss|)[k] == PADDING)
  {
    hide Decoded, Subheaders, Payloads, Sendable, Pdu;
    AllKept(ss, |ss|);
    assert ss[..|ss|] == ss;
    RoundTripIff(ss, b, len);
    var p, w := Payloads(ss, |ss|), ReadEarly(ss);
    assert w == [PADDING] + p;
    AllRead(ss, w, |ss|);
    ShiftedIff(p, PADDING, |p|);
  }

  /**
   The other layout of section 6.1.2 of 3GPP TS 36.321: the last SDU has neither length nor extension bit and takes what
   is left. The SDUs come back exactly if at most a hundred are on logical channels.
  */
  lemma OpenEndIff(ss: seq<Sdu>, b: seq<byte>, len: nat)
    requires ss != [] && (forall k :: 0 <= k < |ss| ==> Sendable(ss[k])) && ss[|ss| - 1].lcid <= 10 && len + 2 <= |b|
    requires b[..len] == Subheaders(ss, |ss| - 1) + [ss[|ss| - 1].lcid] + Payloads(ss, |ss|)
    ensures Decoded(b, len) == Kept(ss, |ss|) <==> |Kept(ss, |ss|)| <= 100
  {
    hide Headers, Subheaders, Payloads, ExtractAll, Sendable;
    if |Kept(ss, |ss|)| <= 100 {
      var n, s := |ss|, ss[|ss| - 1];
      var h, p := Subheaders(ss, n - 1), Payloads(ss, n);
      OpenEndParts(b, len, h, s.lcid, p);
      PrefixGrows(ss, n - 1, n);
      if n > 1 {
        PrefixGrows(ss, n - 2, n - 1);
      }
      HeadersRead(b, len, ss, n - 1, n - 1);
      LastLength(ss);
      LastHeader(b, len, |h|, |Payloads(ss, n - 1)|, RangesOf(ss, n - 1), s);
      PayloadsReadThemselves(ss, n);
      PayloadsReadIff(b, len, ss, p, |h| + 1, n);
    }
  }

  lemma OpenEndParts(b: seq<byte>, len: nat, h: seq<byte>, x: byte, p: seq<byte>)
    requires len <= |b| && b[..len] == h + [x] + p
    ensures h <= b && len == |h| + 1 + |p| && b[|h|] == x && b[|h| + 1..|h| + 1 + |p|] == p
  {
    PduPart(b[..len], h, x, p);
    assert b[..|h|] == b[..len][..|h|] && b[|h|] == b[..len][|h|];
    assert b[|h| + 1..|h| + 1 + |p|] == b[..len][|h| + 1..];
  }

  lemma PduPart(m: seq<byte>, h: seq<byte>, x: byte, p: seq<byte>)
    requires m == h + [x] + p
    ensures m[..|h|] == h && m[|h|] == x && m[|h| + 1..] == p
  {
  }

  lemma LastLength(ss: seq<Sdu>)
    requires ss != [] && Sendable(ss[|ss| - 1]) && ss[|ss| - 1].lcid <= 10
    ensures |Payloads(ss, |ss|)| == |Payloads(ss, |ss| - 1)| + ss[|ss| - 1].len && ss[|ss| - 1].len <= 2048
    ensures RangesOf(ss, |ss|) == RangesOf(ss, |ss| - 1) + [Range(ss[|ss| - 1].lcid, |Payloads(ss, |ss| - 1)|, ss[|ss| - 1].len)]
  {
  }

  lemma LastHeader(b: seq<byte>, len: nat, i: nat, start: nat, hs: seq<Range>, s: Sdu)
    requires len + 2 <= |b| && i < len && |hs| < MAX_HEADERS && s.lcid <= 10 && s.len <= 2048 && b[i] == s.lcid
    requires i + 1 + start + s.len == len
    ensures Headers(b, len, i, start, hs) == (hs + [Range(s.lcid, start, s.len)], i + 1)
  {
    assert LengthField(b, len, i, start) == (s.len, i + 1);
  }

  lemma {:induction false} AllKept(ss: seq<Sdu>, n: nat)
    requires n <= |ss| && forall k :: 0 <= k < |ss| ==> ss[k].lcid <= 10
    ensures Kept(ss, n) == ss[..n]
  {
    if n > 0 {
      AllKept(ss, n - 1);
    }
  }

  lemma {:induction false} AllRead(ss: seq<Sdu>, w: seq<byte>, n: nat)
    requires n <= |ss| && (forall k :: 0 <= k < |ss| ==> ss[k].lcid <= 10) && |Payloads(ss, n)| <= |w|
    ensures ReadsAs(ss, w, n) <==> w[..|Payloads(ss, n)|] == Payloads(ss, n)
  {
    if n > 0 {
      AllRead(ss, w, n - 1);
      var m, p, q := |Payloads(ss, n)|, Payloads(ss, n - 1), ss[n - 1].bytes;
      assert w[..m] == w[..|p|] + w[|p|..m];
      assert w[..m] == p + q ==> w[..m][..|p|] == p && w[..m][|p|..] == q;
    }
  }

  // A sequence is its own shift behind x only if it consists of copies of x.
  lemma {:induction false} ShiftedIff(p: seq<byte>, x: byte, n: nat)
    requires n <= |p|
    ensures ([x] + p)[..n] == p[..n] <==> forall k :: 0 <= k < n ==> p[k] == x
  {
    if n > 0 {
      ShiftedIff(p, x, n - 1);
      var s := [x] + p;
      assert s[..n] == s[..n - 1] + [s[n - 1]] && p[..n] == p[..n - 1] + [p[n - 1]];
      SameEnds(s[..n - 1], s[n - 1], p[..n - 1], p[n - 1]);
      assert s[n - 1] == if n == 1 then x else p[n - 2];
    }
  }

  lemma PduParts(b: seq<byte>, h: seq<byte>, p: seq<byte>)
    requires h + [PADDING] + p <= b
    ensures h <= b && b[|h|] == PADDING && b[|h| + 1..|h| + 1 + |p|] == p
  {
    Slice(b, b, h + [PADDING], p, 0);
    var m := h + [PADDING] + p;
    assert b[..|m|] == m;
    assert b[..|h|] == m[..|h|] == h;
  }

  lemma PaddingRead(b: seq<byte>, len: nat, i: nat, start: nat, hs: seq<Range>)
    requires len + 2 <= |b| && i < len && b[i] == PADDING && |hs| < MAX_HEADERS
    ensures Headers(b, len, i, start, hs) == (hs, i + 1)
  {
  }

  // ------------------------------------------------------------ the program

  // Stores a byte and moves the position on.
  method PutByte(bytes: array<byte>, ind: nat, bytesLen: nat, h: byte) returns (next: nat)
    requires 0 < bytesLen <= bytes.Length && ind < bytesLen
    modifies bytes
    ensures next == Inc(ind, bytesLen - 1) && next < bytesLen
    ensures bytes[..ind] == old(bytes[..ind]) && bytes[ind] == h
  {
    bytes[ind] := h;
    next := Inc(ind, bytesLen - 1);
  }

  method PutSubheader(bytes: array<byte>, ind0: nat, bytesLen: nat, s: Sdu) returns (ind: nat)
    requires 0 < bytesLen <= bytes.Length && ind0 < bytesLen
    modifies bytes
    ensures ind < bytesLen
    ensures ind0 + |Subheader(s)| < bytesLen ==> ind == ind0 + |Subheader(s)| && bytes[..ind] == old(bytes[..ind0]) + Subheader(s)
  {
    ghost var was := bytes[..ind0];
    ind := PutByte(bytes, ind0, bytesLen, 32 + s.lcid % 32);
    if s.lcid <= 10 {
      if s.len > 127 {
        ind := PutByte(bytes, ind, bytesLen, 128 + s.len / 256 % 128);
        ind := PutByte(bytes, ind, bytesLen, s.len % 256);
      } else {
        ind := PutByte(bytes, ind, bytesLen, s.len);
      }
    }
    assert ind0 + |Subheader(s)| < bytesLen ==> bytes[..ind] == was + Subheader(s);
  }

  // Copies as much of data as there is room for.
  method PutBytes(bytes: array<byte>, ind: nat, bytesLen: nat, data: seq<byte>) returns (next: nat)
    requires ind <= bytesLen <= bytes.Length
    modifies bytes
    ensures next == ind + (if |data| < bytesLen - ind then |data| else bytesLen - ind)
    ensures bytes[..next] == old(bytes[..ind]) + data[..next - ind]
  {
    var cplen := if |data| < bytesLen - ind then |data| else bytesLen - ind;
    for i := 0 to cplen
      invariant bytes[..ind + i] == old(bytes[..ind]) + data[..i]
    {
      bytes[ind + i] := data[i];
    }
    next := ind + cplen;
  }

  /** mac_encode: the PDU, for every list of SDUs that fits the buffer. */
  method Encode(bytes: array<byte>, bytesLen: nat, ss: seq<Sdu>) returns (r: nat)
    requires 0 < bytesLen <= bytes.Length && forall k :: 0 <= k < |ss| ==> ss[k].len == |ss[k].bytes|
    modifies bytes
    ensures r <= bytesLen
    ensures Fits(ss, bytesLen) ==> r == |Pdu(ss)| && bytes[..r] == Pdu(ss)
  {
    hide Subheader, Subheaders, Payloads;
    var ind: nat := PutSubheaders(bytes, bytesLen, ss);
    if |ss| > 0 {
      ind := PutByte(bytes, ind, bytesLen, PADDING);
    }
    ghost var start := bytes[..ind];
    assert Fits(ss, bytesLen) && ss != [] ==> start == Subheaders(ss, |ss|) + [PADDING];
    r := PutPayloads(bytes, ind, bytesLen, ss);
    EmptyPdu(ss);
  }

  lemma EmptyPdu(ss: seq<Sdu>)
    ensures ss == [] ==> Subheaders(ss, |ss|) == [] && Payloads(ss, |ss|) == []
  {
  }

  method PutPayloads(bytes: array<byte>, ind0: nat, bytesLen: nat, ss: seq<Sdu>) returns (ind: nat)
    requires ind0 <= bytesLen <= bytes.Length
    modifies bytes
    ensures ind <= bytesLen
    ensures ind0 + |Payloads(ss, |ss|)| <= bytesLen ==> bytes[..ind] == old(bytes[..ind0]) + Payloads(ss, |ss|)
  {
    ghost var start := bytes[..ind0];
    ind := ind0;
    for i := 0 to |ss|
      invariant ind <= bytesLen
      invariant ind0 + |Payloads(ss, |ss|)| <= bytesLen ==> bytes[..ind] == start + Payloads(ss, i)
    {
      PrefixGrows(ss, i + 1, |ss|);
      ind := PutBytes(bytes, ind, bytesLen, ss[i].bytes);
    }
  }

  method PutSubheaders(bytes: array<byte>, bytesLen: nat, ss: seq<Sdu>) returns (ind: nat)
    requires 0 < bytesLen <= bytes.Length
    modifies bytes
    ensures ind < bytesLen
    ensures Fits(ss, bytesLen) ==> bytes[..ind] == Subheaders(ss, |ss|)
  {
    hide Subheader;
    ind := 0;
    for i := 0 to |ss|
      invariant ind < bytesLen
      invariant Fits(ss, bytesLen) ==> bytes[..ind] == Subheaders(ss, i)
    {
      PrefixGrows(ss, i + 1, |ss|);
      ind := PutSubheader(bytes, ind, bytesLen, ss[i]);
    }
  }

  /**
   mac_decode, for every input that does not make it write behind the array: what it returns is what Decoded says, up to
   outlen SDUs.
  */
  method Decode(sdus: array<Sdu>, outlen: nat, bytes: seq<byte>, len: nat) returns (r: nat)
    requires len + 2 <= |bytes| && forall j :: 0 <= j < |Decoded(bytes, len)| ==> Slot(j, outlen) < sdus.Length
    modifies sdus
    ensures r == Slot(|Decoded(bytes, len)|, outlen) <= sdus.Length && sdus[..r] == Decoded(bytes, len)[..r]
  {
    hide Extracted;
    var headers, i := ReadHeaders(bytes, len);
    assert |headers| == |Decoded(bytes, len)|;
    r := 0;
    for j := 0 to |headers|
      invariant r == Slot(j, outlen) <= sdus.Length
      invariant sdus[..r] == ExtractAll(bytes, len, i, headers[..j])[..r]
    {
      assert headers[..j + 1] == headers[..j] + [headers[j]];
      ExtractOne(bytes, len, i, headers[..j], headers[j]);
      sdus[r] := Extracted(bytes, len, i, headers[j]);
      r := Inc(r, outlen);
    }
    assert headers[..|headers|] == headers;
  }

  method ReadHeaders(bytes: seq<byte>, len: nat) returns (headers: seq<Range>, i: nat)
    requires len + 2 <= |bytes|
    ensures (headers, i) == Headers(bytes, len, 0, 0, [])
  {
    hide LengthField, Clip;
    var start: nat, e := 0, 1;
    headers, i := [], 0;
    while i < len && e == 1 && |headers| < MAX_HEADERS
      invariant |headers| <= MAX_HEADERS
      invariant Headers(bytes, len, 0, 0, []) == if e == 1 then Headers(bytes, len, i, start, headers) else (headers, i)
      decreases len - i
    {
      var lcid := bytes[i] as int % 32;
      e := bytes[i] as int / 32 % 2;
      if lcid == 31 {
        i := i + 1;
        continue;
      }
      var (length, next) := LengthField(bytes, len, i, start);
      if lcid <= 10 {
        headers := headers + [Clip(lcid, start, length, len)];
      }
      start, i := start + length, next;
    }
  }
}
