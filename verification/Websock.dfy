/** The buffered socket of noVNC: a receive queue that is one growing, compacted buffer,
    and a bounded send queue. */
module WebsockModel {
  import opened Common

  const MAX_RQ_GROW_SIZE: nat := 40 * 1024 * 1024
  const INITIAL_RQ_SIZE: nat := 4 * 1024 * 1024
  const SQ_SIZE: nat := 10 * 1024
  const TWO32: nat := 0x1_0000_0000

  // ---------- 32-bit arithmetic as JavaScript does it ----------

  function ToInt32(n: int): (r: int)
    ensures -0x8000_0000 <= r < 0x8000_0000
  {
    var m := n % TWO32;
    if m >= 0x8000_0000 then m - TWO32 else m
  }

  /** Network byte order: the first byte is the most significant. */
  function BigEndian(s: Bytes): (r: nat) {
    if s == [] then 0 else BigEndian(s[..|s| - 1]) * 256 + s[|s| - 1]
  }

  function U16(s: Bytes, p: nat): (r: nat)
    requires p + 2 <= |s|
  {
    s[p] as int * 0x100 + s[p + 1]
  }

  function U32(s: Bytes, p: nat): (r: nat)
    requires p + 4 <= |s|
    ensures r < TWO32
  {
    s[p] as int * 0x100_0000 + s[p + 1] as int * 0x1_0000 + s[p + 2] as int * 0x100 + s[p + 3]
  }

  lemma BigEndianFields(s: Bytes, p: nat)
    ensures p + 1 <= |s| ==> BigEndian(s[p..p + 1]) == s[p]
    ensures p + 2 <= |s| ==> BigEndian(s[p..p + 2]) == U16(s, p)
    ensures p + 4 <= |s| ==> BigEndian(s[p..p + 4]) == U32(s, p)
  {
    if p + 1 <= |s| {
      assert s[p..p + 1][..0] == [];
      assert BigEndian(s[p..p + 1]) == s[p];
    }
    if p + 2 <= |s| {
      assert s[p..p + 2][..1] == s[p..p + 1];
    }
    if p + 4 <= |s| {
      assert s[p..p + 3][..2] == s[p..p + 2];
      assert s[p..p + 4][..3] == s[p..p + 3];
      assert BigEndian(s[p..p + 3]) == U16(s, p) * 256 + s[p + 2];
    }
  }

  /** What sQpush16 and sQpush32 append, for any integer argument. */
  function Wire16(num: int): Bytes { [num / 0x100 % 0x100, num % 0x100] }

  function Wire32(num: int): Bytes {
    [num / 0x100_0000 % 0x100, num / 0x1_0000 % 0x100, num / 0x100 % 0x100, num % 0x100]
  }

  lemma TwoDigits(n: int)
    ensures n % 0x1_0000 == n / 0x100 % 0x100 * 0x100 + n % 0x100
  {
    var q := n / 0x100;
    assert n == (q / 0x100) * 0x1_0000 + (q % 0x100 * 0x100 + n % 0x100);
  }

  lemma TwoHalves(n: int)
    ensures n % TWO32 == n / 0x1_0000 % 0x1_0000 * 0x1_0000 + n % 0x1_0000
  {
    var q := n / 0x1_0000;
    assert n == (q / 0x1_0000) * TWO32 + (q % 0x1_0000 * 0x1_0000 + n % 0x1_0000);
  }

  lemma DivideTwice(n: int)
    ensures n / 0x100_0000 == n / 0x1_0000 / 0x100
  {
    var q := n / 0x1_0000;
    assert n == (q / 0x100) * 0x100_0000 + (q % 0x100 * 0x1_0000 + n % 0x1_0000);
  }

  lemma FourDigits(n: int)
    ensures U32(Wire32(n), 0) == n % TWO32
  {
    TwoHalves(n);
    TwoDigits(n);
    TwoDigits(n / 0x1_0000);
    DivideTwice(n);
  }

  /** rQshift32 reads back what sQpush32 wrote, modulo 2^32. */
  lemma PushShiftRoundTrip32(before: Bytes, num: int, after: Bytes)
    ensures U32(before + Wire32(num) + after, |before|) == num % TWO32
  {
    FourDigits(num);
    var w := Wire32(num);
    var s := before + w + after;
    assert forall k :: 0 <= k < 4 ==> s[|before| + k] == w[k];
  }

  lemma PushShiftRoundTrip16(before: Bytes, num: int, after: Bytes)
    ensures U16(before + Wire16(num) + after, |before|) == num % 0x1_0000
  {
    TwoDigits(num);
    var w := Wire16(num);
    var s := before + w + after;
    assert forall k :: 0 <= k < 2 ==> s[|before| + k] == w[k];
  }

  // ---------- Finding a layout in the stream ----------

  ghost predicate At(s: Bytes, p: nat, w: Bytes) {
    p + |w| <= |s| && s[p..p + |w|] == w
  }

  lemma Slice(s: Bytes, p: nat, w: Bytes)
    requires At(s, p, w)
    ensures p + |w| <= |s| && s[p..p + |w|] == w
  {
  }

  lemma Parts(s: Bytes, p: nat, a: Bytes, b: Bytes)
    requires At(s, p, a + b)
    ensures At(s, p, a) && At(s, p + |a|, b)
  {
    var w := a + b;
    assert s[p..p + |a|] == s[p..p + |w|][..|a|] == w[..|a|] == a;
    assert s[p + |a|..p + |a| + |b|] == s[p..p + |w|][|a|..] == w[|a|..] == b;
  }

  predicate Fits16(n: nat) { n < 0x1_0000 }

  lemma At16(s: Bytes, p: nat, n: nat)
    requires At(s, p, Wire16(n)) && Fits16(n)
    ensures U16(s, p) == n
  {
    PushShiftRoundTrip16(s[..p], n, s[p + 2..]);
    assert s[..p] + s[p..p + 2] + s[p + 2..] == s;
  }

  lemma At32(s: Bytes, p: nat, n: int)
    requires At(s, p, Wire32(n))
    ensures U32(s, p) == n % TWO32
  {
    PushShiftRoundTrip32(s[..p], n, s[p + 4..]);
    assert s[..p] + s[p..p + 4] + s[p + 4..] == s;
  }

  lemma At8(s: Bytes, p: nat, w: Bytes, i: nat)
    requires At(s, p, w) && i < |w|
    ensures s[p + i] == w[i]
  {
    assert s[p..p + |w|][i] == s[p + i];
  }

  lemma WireLengths()
    ensures forall n: int :: |Wire16(n)| == 2 && |Wire32(n)| == 4
  {
  }

  lemma SuffixOfSlice(buffer: Bytes, stream: Bytes, base: nat, i: nat)
    requires base <= |stream| && buffer == stream[base..] && i <= |buffer|
    ensures buffer[i..] == stream[base + i..]
  {
  }

  /** Network order: the first byte is the most significant. */
  lemma {:induction false} FirstIsMostSignificant(b: Byte, rest: Bytes)
    ensures BigEndian([b] + rest) == b * Pow256(|rest|) + BigEndian(rest)
  {
    var s := [b] + rest;
    if rest == [] {
      assert s[..0] == [] && BigEndian(s[..0]) == 0;
    } else {
      var n := |rest| - 1;
      assert s[..n + 1] == [b] + rest[..n];
      FirstIsMostSignificant(b, rest[..n]);
      assert BigEndian(s) == (b * Pow256(n) + BigEndian(rest[..n])) * 256 + rest[n];
      assert (b * Pow256(n)) * 256 == b * (256 * Pow256(n));
    }
  }

  /** What is pushed is the number modulo 2^32 or 2^16 in that order. */
  lemma WireIsNetworkOrder(n: int)
    ensures BigEndian(Wire32(n)) == n % TWO32 && BigEndian(Wire16(n)) == n % 0x1_0000
  {
    var w, v := Wire32(n), Wire16(n);
    BigEndianFields(w, 0);
    BigEndianFields(v, 0);
    assert w[0..4] == w && v[0..2] == v;
    FourDigits(n);
    TwoDigits(n);
  }

  class Websock {
    // Receive queue
    var rQi: nat
    var rQlen: nat
    var rQbufferSize: nat
    var rQ: array<Byte>

    // Send queue
    var sQlen: nat
    var sQ: array<Byte>

    /** readyState === 'open' */
    var open: bool

    /** Every byte received so far, and the position in it of rQ[0]. */
    ghost var stream: Bytes
    ghost var base: nat

    /** The payloads handed to the raw channel, and every byte pushed so far. */
    ghost var sent: seq<Bytes>
    ghost var pushed: Bytes

    /** The buffer up to rQlen is a contiguous slice of the received stream
        that ends at its last byte. */
    ghost predicate ValidRecv()
      reads `rQ, `rQi, `rQlen, `rQbufferSize, `base, `stream, rQ
      ensures ValidRecv() ==> rQi <= rQlen && |stream| == base + rQlen
    {
      && rQ.Length == rQbufferSize <= MAX_RQ_GROW_SIZE
      && rQi <= rQlen <= rQ.Length
      && |stream| == base + rQlen
      && rQ[..rQlen] == stream[base..]
    }

    /** Sent payloads followed by the pending buffer are all bytes pushed, in order. */
    ghost predicate ValidSend()
      reads `sQ, `sQlen, `sent, `pushed, sQ
    {
      && sQ.Length == SQ_SIZE
      && sQlen <= SQ_SIZE
      && Flatten(sent) + sQ[..sQlen] == pushed
      && forall k :: 0 <= k < |sent| ==> 0 < |sent[k]| <= SQ_SIZE
    }

    ghost predicate Valid()
      reads this, rQ, sQ
    {
      rQ != sQ && ValidRecv() && ValidSend()
    }

    /** How much of the stream has been consumed. */
    ghost function Pos(): nat
      reads this
    {
      base + rQi
    }

    ghost function Unread(): Bytes
      reads this
      requires Pos() <= |stream|
    {
      stream[Pos()..]
    }

    constructor (open: bool)
      ensures Valid() && fresh(rQ) && fresh(sQ)
      ensures stream == [] && pushed == [] && sent == [] && Pos() == 0
      ensures this.open == open && rQbufferSize == INITIAL_RQ_SIZE
    {
      rQi, rQlen, rQbufferSize := 0, 0, INITIAL_RQ_SIZE;
      rQ := new Byte[INITIAL_RQ_SIZE];
      sQ := new Byte[SQ_SIZE];
      sQlen := 0;
      this.open := open;
      stream, base, sent, pushed := [], 0, [], [];
    }

    // ---------- Receive queue ----------

    method RQpeek8() returns (r: Byte)
      requires ValidRecv() && rQi < rQlen
      ensures r == stream[Pos()]
    {
      r := rQ[rQi];
      assert rQ[..rQlen][rQi] == stream[base..][rQi];
    }

    method RQskipBytes(bytes: nat)
      requires ValidRecv() && rQi + bytes <= rQlen
      modifies `rQi
      ensures ValidRecv() && rQi == old(rQi) + bytes
    {
      rQi := rQi + bytes;
    }

    method RQshift(bytes: nat) returns (r: nat)
      requires ValidRecv() && bytes <= 4 && rQi + bytes <= rQlen
      modifies `rQi
      ensures ValidRecv() && rQi == old(rQi) + bytes
      ensures r == BigEndian(stream[old(Pos())..old(Pos()) + bytes])
    {
      var res: int := 0;
      var left := bytes;
      ghost var p := Pos();
      ghost var taken: Bytes := [];
      while left > 0
        invariant 0 <= left <= bytes && rQi == old(rQi) + |taken| && |taken| + left == bytes
        invariant ValidRecv()
        invariant taken == stream[p..p + |taken|]
        invariant Shifted(res, taken, left)
      {
        left := left - 1;
        assert rQ[..rQlen][rQi] == stream[base..][rQi];
        var b := rQ[rQi];
        ShiftStep(res, taken, b, left);
        res := res + ToInt32(b * Pow256(left));
        taken := taken + [b];
        rQi := rQi + 1;
      }
      ShiftedAll(res, taken);
      r := res % TWO32;
    }

    method RQshift8() returns (r: Byte)
      requires ValidRecv() && rQi + 1 <= rQlen
      modifies `rQi
      ensures ValidRecv() && rQi == old(rQi) + 1 && r == stream[old(Pos())]
    {
      BigEndianFields(stream, Pos());
      r := RQshift(1);
    }

    method RQshift16() returns (r: nat)
      requires ValidRecv() && rQi + 2 <= rQlen
      modifies `rQi
      ensures ValidRecv() && rQi == old(rQi) + 2 && r == U16(stream, old(Pos()))
    {
      BigEndianFields(stream, Pos());
      r := RQshift(2);
    }

    method RQshift32() returns (r: nat)
      requires ValidRecv() && rQi + 4 <= rQlen
      modifies `rQi
      ensures ValidRecv() && rQi == old(rQi) + 4 && r == U32(stream, old(Pos()))
    {
      BigEndianFields(stream, Pos());
      r := RQshift(4);
    }

    method RQshiftBytes(len: nat) returns (r: Bytes)
      requires ValidRecv() && rQi + len <= rQlen
      modifies `rQi
      ensures ValidRecv() && rQi == old(rQi) + len
      ensures r == stream[old(Pos())..old(Pos()) + len]
    {
      rQi := rQi + len;
      r := rQ[rQi - len..rQi];
      assert r == rQ[..rQlen][rQi - len..rQi];
    }

    /** Steps of 4096 bytes, as the source takes them. */
    method RQshiftStr(len: nat) returns (str: Bytes)
      requires ValidRecv() && rQi + len <= rQlen
      modifies `rQi
      ensures ValidRecv() && rQi == old(rQi) + len
      ensures str == stream[old(Pos())..old(Pos()) + len]
    {
      str := [];
      var i := 0;
      while i < len
        invariant 0 <= i && Min(i, len) == rQi - old(rQi)
        invariant ValidRecv()
        invariant str == stream[old(Pos())..old(Pos()) + Min(i, len)]
      {
        var part := RQshiftBytes(Min(4096, len - i));
        str := str + part;
        i := i + 4096;
      }
    }

    /** Wait for num bytes, going back when they are not there. The goback is exactly
        undone consumption, or the call throws and changes nothing. */
    method RQwait(num: nat, goback: nat) returns (r: Result<bool, string>)
      requires ValidRecv()
      modifies `rQi
      ensures ValidRecv()
      ensures r.Err? <==> old(|Unread()|) < num && goback != 0 && old(rQi) < goback
      ensures r.Ok? ==> r.value == (old(|Unread()|) < num)
      ensures Pos() == if r.Ok? && r.value then old(Pos()) - goback else old(Pos())
      ensures r.Ok? && r.value ==>
                Unread() == stream[old(Pos()) - goback..old(Pos())] + old(Unread())
    {
      if rQlen - rQi < num {
        if goback != 0 {
          if rQi < goback {
            return Err("rQwait cannot backup");
          }
          rQi := rQi - goback;
        }
        return Ok(true);
      }
      return Ok(false);
    }

    /** RQwait for a caller that has itself consumed the bytes it wants back since the
        last message arrived: nothing can throw. */
    method Wait(num: nat, goback: nat) returns (wait: bool)
      requires ValidRecv() && goback <= rQi
      modifies `rQi
      ensures ValidRecv()
      ensures wait <==> old(rQlen - rQi) < num
      ensures rQi == if wait then old(rQi) - goback else old(rQi)
    {
      var r := RQwait(num, goback);
      wait := r.value;
    }

    /** Compact in place or grow. On an error only the recorded size has changed. */
    method ExpandCompactRQ(minFit: nat) returns (ok: bool)
      requires ValidRecv()
      modifies this`rQi, this`rQlen, this`rQbufferSize, this`rQ, this`base, rQ
      ensures ok <==> old(rQlen - rQi) + minFit <= MAX_RQ_GROW_SIZE
      ensures rQ == old(rQ) || fresh(rQ)
      ensures ok ==> ValidRecv() && rQi == 0 && Pos() == old(Pos()) && rQbufferSize - rQlen >= minFit
      ensures ok ==> rQbufferSize >= old(rQbufferSize)
      ensures !ok ==>
                && rQbufferSize == MAX_RQ_GROW_SIZE && rQ == old(rQ) && rQ[..] == old(rQ[..])
                && rQi == old(rQi) && rQlen == old(rQlen) && base == old(base)
    {
      var required := (rQlen - rQi + minFit) * 8;
      var resizeNeeded := rQbufferSize < required;
      if resizeNeeded {
        rQbufferSize := Max(rQbufferSize * 2, required);
      }
      if rQbufferSize > MAX_RQ_GROW_SIZE {
        rQbufferSize := MAX_RQ_GROW_SIZE;
        if rQbufferSize - (rQlen - rQi) < minFit {
          return false;
        }
      }
      MoveUnread(resizeNeeded);
      return true;
    }

    /** copyWithin, or set on a new array: n bytes from position start to the front. */
    method CopyBytes(from: array<Byte>, start: nat, to: array<Byte>, n: nat)
      requires start + n <= from.Length && n <= to.Length
      modifies to
      ensures to[..n] == old(from[start..start + n])
    {
      forall k | 0 <= k < n {
        to[k] := from[start + k];
      }
    }

    /** Bring the unread bytes to the front of a new array of the recorded size, or of this one. */
    method MoveUnread(resize: bool)
      requires rQi <= rQlen <= rQ.Length && |stream| == base + rQlen && rQ[..rQlen] == stream[base..]
      requires if resize then rQlen - rQi <= rQbufferSize else rQ.Length == rQbufferSize
      requires rQbufferSize <= MAX_RQ_GROW_SIZE
      modifies this`rQi, this`rQlen, this`rQ, this`base, rQ
      ensures if resize then fresh(rQ) else rQ == old(rQ)
      ensures ValidRecv() && rQi == 0 && rQlen == old(rQlen - rQi) && Pos() == old(Pos())
    {
      var n := rQlen - rQi;
      ghost var unread := rQ[rQi..rQlen];
      SuffixOfSlice(rQ[..rQlen], stream, base, rQi);
      assert unread == rQ[..rQlen][rQi..];
      if resize {
        var grown := new Byte[rQbufferSize];
        CopyBytes(rQ, rQi, grown, n);
        rQ := grown;
      } else {
        CopyBytes(rQ, rQi, rQ, n);
      }
      base := base + rQi;
      rQlen := n;
      rQi := 0;
    }

    /** A message event: the bytes join the stream, or they do not fit and the call throws. */
    method RecvMessage(data: Bytes) returns (ok: bool)
      requires Valid()
      modifies this`rQi, this`rQlen, this`rQbufferSize, this`rQ, this`base, this`stream, rQ
      ensures ok <==> old(|Unread()|) + |data| <= MAX_RQ_GROW_SIZE
      ensures rQ == old(rQ) || fresh(rQ)
      ensures ok ==> Valid() && stream == old(stream) + data && Pos() == old(Pos())
      ensures ok ==> rQbufferSize >= old(rQbufferSize)
      ensures !ok ==> stream == old(stream) && rQbufferSize == MAX_RQ_GROW_SIZE
    {
      hide ValidSend;
      ghost var unread := Unread();
      if rQlen == rQi {
        base := base + rQlen;
        rQlen, rQi := 0, 0;
      }
      assert ValidRecv() && |unread| == rQlen - rQi;
      if |data| > rQbufferSize - rQlen {
        var fits := ExpandCompactRQ(|data|);
        if !fits {
          return false;
        }
      }
      StoreReceived(data);
      return true;
    }

    method StoreReceived(data: Bytes)
      requires ValidRecv() && rQlen + |data| <= rQbufferSize
      modifies this`rQlen, this`stream, rQ
      ensures ValidRecv() && rQlen == old(rQlen) + |data| && stream == old(stream) + data
    {
      ghost var kept := rQ[..rQlen];
      forall k | 0 <= k < |data| {
        rQ[rQlen + k] := data[k];
      }
      assert rQ[..rQlen + |data|] == kept + data;
      assert (stream + data)[base..] == stream[base..] + data;
      stream := stream + data;
      rQlen := rQlen + |data|;
    }

    // ---------- Send queue ----------

    method Flush()
      requires ValidSend()
      modifies this`sQlen, this`sent
      ensures ValidSend()
      ensures if open then sQlen == 0 else sQlen == old(sQlen) && sent == old(sent)
      ensures open && old(sQlen) > 0 ==> sent == old(sent) + [old(sQ[..sQlen])]
      ensures open && old(sQlen) == 0 ==> sent == old(sent)
    {
      if sQlen > 0 && open {
        FlattenSnoc(sent, sQ[..sQlen]);
        sent := sent + [sQ[..sQlen]];
        sQlen := 0;
      }
    }

    method SQensureSpace(bytes: nat)
      requires ValidSend() && bytes <= SQ_SIZE
      requires open || sQlen + bytes <= SQ_SIZE
      modifies this`sQlen, this`sent
      ensures ValidSend() && sQlen + bytes <= SQ_SIZE
      ensures !open ==> sQlen == old(sQlen) && sent == old(sent)
      ensures old(sQlen) + bytes <= SQ_SIZE ==> sQlen == old(sQlen) && sent == old(sent)
    {
      if SQ_SIZE - sQlen < bytes {
        Flush();
      }
    }

    /** The store the sQpush methods share: bytes for which there is room. */
    method Append(data: Bytes)
      requires ValidSend() && sQlen + |data| <= SQ_SIZE
      modifies this`sQlen, this`pushed, sQ
      ensures ValidSend() && sQlen == old(sQlen) + |data| && pushed == old(pushed) + data
    {
      ghost var pending := sQ[..sQlen];
      forall k | 0 <= k < |data| {
        sQ[sQlen + k] := data[k];
      }
      sQlen := sQlen + |data|;
      pushed := pushed + data;
      assert sQ[..sQlen] == pending + data;
    }

    method SQpush8(num: int)
      requires ValidSend() && (open || sQlen + 1 <= SQ_SIZE)
      modifies this`sQlen, this`sent, this`pushed, sQ
      ensures ValidSend() && pushed == old(pushed) + [num % 0x100]
    {
      SQensureSpace(1);
      Append([num % 0x100]);
    }

    method SQpush16(num: int)
      requires ValidSend() && (open || sQlen + 2 <= SQ_SIZE)
      modifies this`sQlen, this`sent, this`pushed, sQ
      ensures ValidSend() && pushed == old(pushed) + Wire16(num)
    {
      SQensureSpace(2);
      Append(Wire16(num));
    }

    method SQpush32(num: int)
      requires ValidSend() && (open || sQlen + 4 <= SQ_SIZE)
      modifies this`sQlen, this`sent, this`pushed, sQ
      ensures ValidSend() && pushed == old(pushed) + Wire32(num)
    {
      SQensureSpace(4);
      Append(Wire32(num));
    }

    /** Any length, in as many chunks as the buffer makes necessary. */
    method SQpushBytes(bytes: Bytes)
      requires ValidSend() && (open || sQlen + |bytes| <= SQ_SIZE)
      modifies this`sQlen, this`sent, this`pushed, sQ
      ensures ValidSend() && pushed == old(pushed) + bytes
      ensures !open ==> sQlen == old(sQlen) + |bytes| && sent == old(sent)
    {
      hide ValidSend;
      var offset := 0;
      assert bytes[..offset] == [] && pushed + [] == pushed;
      while offset < |bytes|
        invariant 0 <= offset <= |bytes|
        invariant ValidSend() && pushed == old(pushed) + bytes[..offset]
        invariant !open ==> sQlen == old(sQlen) + offset && sent == old(sent)
      {
        SQensureSpace(1);
        var chunkSize := SQ_SIZE - sQlen;
        if chunkSize > |bytes| - offset {
          chunkSize := |bytes| - offset;
        }
        var chunk := bytes[offset..offset + chunkSize];
        assert bytes[..offset + chunkSize] == bytes[..offset] + chunk;
        Append(chunk);
        offset := offset + chunkSize;
      }
      assert bytes[..offset] == bytes;
    }
  }

  /** res is, modulo 2^32, the number the taken bytes begin when left more bytes follow. */
  ghost predicate Shifted(res: int, taken: Bytes, left: nat) {
    res % TWO32 == BigEndian(taken) * Pow256(left) % TWO32
  }

  lemma ModAdd(a: int, b: int, c: int, d: int)
    requires a % TWO32 == c % TWO32 && b % TWO32 == d % TWO32
    ensures (a + b) % TWO32 == (c + d) % TWO32
  {
  }

  lemma ToInt32Mod(n: int)
    ensures ToInt32(n) % TWO32 == n % TWO32
  {
  }

  lemma OneByteMore(taken: Bytes, b: Byte, left: nat)
    ensures BigEndian(taken + [b]) * Pow256(left) == BigEndian(taken) * Pow256(left + 1) + b * Pow256(left)
  {
    assert (taken + [b])[..|taken|] == taken;
    Distribute(BigEndian(taken), b, Pow256(left));
  }

  lemma ShiftStep(res: int, taken: Bytes, b: Byte, left: nat)
    requires Shifted(res, taken, left + 1)
    ensures Shifted(res + ToInt32(b * Pow256(left)), taken + [b], left)
  {
    hide ToInt32, BigEndian, Pow256;
    var value := b * Pow256(left);
    ToInt32Mod(value);
    OneByteMore(taken, b, left);
    ModAdd(res, ToInt32(value), BigEndian(taken) * Pow256(left + 1), value);
  }

  lemma Distribute(value: nat, b: nat, pow: nat)
    ensures (value * 256 + b) * pow == value * (256 * pow) + b * pow
  {
  }

  lemma ShiftedAll(res: int, taken: Bytes)
    requires Shifted(res, taken, 0) && |taken| <= 4
    ensures res % TWO32 == BigEndian(taken)
  {
    BigEndianBound(taken);
    assert Pow256(|taken|) <= TWO32 by {
      assert Pow256(1) == 256;
      assert Pow256(2) == 0x1_0000;
      assert Pow256(3) == 0x100_0000;
      assert Pow256(4) == TWO32;
    }
  }

  lemma {:induction false} BigEndianBound(s: Bytes)
    ensures BigEndian(s) < Pow256(|s|)
  {
    if s != [] {
      BigEndianBound(s[..|s| - 1]);
    }
  }
}
