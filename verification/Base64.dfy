/** base64.js: the encoder, the decoder with its pre-sized result, and the two tables.
    Alphabet of section 4 of RFC 4648. */
module Base64Codec {
  import opened Common

  // ---------- Tables ----------

  const PAD: CodeUnit := '=' as int

  /** toBase64Table, without the padding character at index 64. */
  function ToChar(v: nat): CodeUnit
    requires v < 64
  {
    if v < 26 then 'A' as int + v
    else if v < 52 then 'a' as int + (v - 26)
    else if v < 62 then '0' as int + (v - 52)
    else if v == 62 then '+' as int else '/' as int
  }

  /** toBinaryTable: -1 for illegal codes, and 0 for the padding character. */
  function ToValue(code: int): (v: int)
    requires 0 <= code < 128
    ensures -1 <= v < 64
  {
    if 'A' as int <= code <= 'Z' as int then code - 'A' as int
    else if 'a' as int <= code <= 'z' as int then code - 'a' as int + 26
    else if '0' as int <= code <= '9' as int then code - '0' as int + 52
    else if code == '+' as int then 62
    else if code == '/' as int then 63
    else if code == PAD then 0
    else -1
  }

  /** Only the low seven bits of a character code are looked at. */
  function Value(c: CodeUnit): (v: int)
    ensures -1 <= v < 64
  {
    ToValue(c % 128)
  }

  predicate Legal(c: CodeUnit) { Value(c) != -1 }

  lemma TablesAgree(v: nat)
    requires v < 64
    ensures Value(ToChar(v)) == v && ToChar(v) != PAD
  {
  }

  /** The alphabet of section 4 of RFC 4648: A to Z, a to z, 0 to 9, plus and slash, in this order. */
  lemma TableIsAlphabet(v: nat)
    ensures ToChar(0) == 65 && ToChar(26) == 97 && ToChar(52) == 48 && ToChar(62) == 43 && ToChar(63) == 47
    ensures v < 63 && v !in {25, 51, 61, 62} ==> ToChar(v + 1) == ToChar(v) + 1
    ensures PAD == 61
  {
  }

  // ---------- Encoding ----------

  function Quad(a: Byte, b: Byte, c: Byte): Text {
    [ToChar(a / 4), ToChar(a % 4 * 16 + b / 16), ToChar(b % 16 * 4 + c / 64), ToChar(c % 64)]
  }

  function TwoLeft(a: Byte, b: Byte): Text {
    [ToChar(a / 4), ToChar(a % 4 * 16 + b / 16), ToChar(b % 16 * 4), PAD]
  }

  function OneLeft(a: Byte): Text { [ToChar(a / 4), ToChar(a % 4 * 16), PAD, PAD] }

  function Encoded(d: Bytes): Text {
    if |d| == 0 then []
    else if |d| == 1 then OneLeft(d[0])
    else if |d| == 2 then TwoLeft(d[0], d[1])
    else Quad(d[0], d[1], d[2]) + Encoded(d[3..])
  }

  /** The number that four characters stand for, by their places in the alphabet. */
  function GroupValue(q: Text): nat
    requires |q| == 4 && Legal(q[0]) && Legal(q[1]) && Legal(q[2]) && Legal(q[3])
  {
    Value(q[0]) * 0x4_0000 + Value(q[1]) * 0x1000 + Value(q[2]) * 0x40 + Value(q[3])
  }

  /** Three bytes are a number of 24 bits, written with four characters; what is missing is zero, and
      padding stands in its place. */
  lemma GroupsHoldTheirBytes(a: Byte, b: Byte, c: Byte)
    ensures var q := Quad(a, b, c);
            && Legal(q[0]) && Legal(q[1]) && Legal(q[2]) && Legal(q[3])
            && GroupValue(q) == a * 0x1_0000 + b as int * 0x100 + c
    ensures var q := TwoLeft(a, b);
            && Legal(q[0]) && Legal(q[1]) && Legal(q[2]) && Legal(q[3])
            && GroupValue(q) == a * 0x1_0000 + b as int * 0x100 && q[3] == PAD
    ensures var q := OneLeft(a);
            && Legal(q[0]) && Legal(q[1]) && Legal(q[2]) && Legal(q[3])
            && GroupValue(q) == a * 0x1_0000 && q[2] == PAD && q[3] == PAD
  {
    hide ToChar, Value;
    TablesAgree(a / 4);
    TablesAgree(a % 4 * 16 + b / 16);
    TablesAgree(a % 4 * 16);
    TablesAgree(b % 16 * 4 + c / 64);
    TablesAgree(b % 16 * 4);
    TablesAgree(c % 64);
    PadIsZero();
    assert a == a / 4 * 4 + a % 4 && b == b / 16 * 16 + b % 16 && c == c / 64 * 64 + c % 64;
  }

  lemma PadIsZero()
    ensures Legal(PAD) && Value(PAD) == 0
  {
  }

  lemma {:induction false} EncodedSplit(d: Bytes, i: nat)
    requires i % 3 == 0 && i <= |d|
    ensures Encoded(d) == Encoded(d[..i]) + Encoded(d[i..])
  {
    if i == 0 {
      assert d[0..] == d;
    } else {
      EncodedSplit(d[3..], i - 3);
      assert d[..i][3..] == d[3..][..i - 3];
      assert d[3..][i - 3..] == d[i..];
    }
  }

  method Encode(data: Bytes) returns (result: Text)
    ensures result == Encoded(data)
  {
    hide Encoded, ToChar;
    result := [];
    EncodedNothing(data[..0]);
    var length := |data|;
    var lengthpad := length % 3;
    var i := 0;
    while i < length - 2
      invariant 0 <= i <= length && i % 3 == 0
      invariant result == Encoded(data[..i])
    {
      result := result + [ToChar(data[i] / 4)];
      result := result + [ToChar(data[i] % 4 * 16 + data[i + 1] / 16)];
      result := result + [ToChar(data[i + 1] % 16 * 4 + data[i + 2] / 64)];
      result := result + [ToChar(data[i + 2] % 64)];
      OneMoreQuad(data, i);
      assert result == Encoded(data[..i]) + Quad(data[i], data[i + 1], data[i + 2]);
      i := i + 3;
    }
    EncodedSplit(data, i);
    ghost var done := result;
    var j := length - lengthpad;
    if lengthpad == 2 {
      result := result + [ToChar(data[j] / 4)];
      result := result + [ToChar(data[j] % 4 * 16 + data[j + 1] / 16)];
      result := result + [ToChar(data[j + 1] % 16 * 4)];
      result := result + [PAD];
      assert data[i..] == [data[j], data[j + 1]];
      EncodedTwo(data[j], data[j + 1]);
      assert result == done + TwoLeft(data[j], data[j + 1]);
    } else if lengthpad == 1 {
      result := result + [ToChar(data[j] / 4)];
      result := result + [ToChar(data[j] % 4 * 16)];
      result := result + [PAD];
      result := result + [PAD];
      assert data[i..] == [data[j]];
      EncodedOne(data[j]);
      assert result == done + OneLeft(data[j]);
    } else {
      EncodedNothing(data[i..]);
    }
  }

  lemma EncodedNothing(d: Bytes)
    ensures d == [] ==> Encoded(d) == []
  {
  }

  lemma EncodedOne(a: Byte)
    ensures Encoded([a]) == OneLeft(a)
  {
  }

  lemma EncodedTwo(a: Byte, b: Byte)
    ensures Encoded([a, b]) == TwoLeft(a, b)
  {
  }

  lemma OneMoreQuad(data: Bytes, i: nat)
    requires i + 3 <= |data| && i % 3 == 0
    ensures Encoded(data[..i + 3]) == Encoded(data[..i]) + Quad(data[i], data[i + 1], data[i + 2])
  {
    EncodedSplit(data[..i + 3], i);
    assert data[..i + 3][..i] == data[..i];
    var last := data[..i + 3][i..];
    assert last == [data[i], data[i + 1], data[i + 2]];
    assert last[3..] == [] && Encoded(last[3..]) == [];
    assert Encoded(last) == Quad(last[0], last[1], last[2]) + Encoded(last[3..]);
  }

  // ---------- Decoding ----------

  /** leftbits, leftdata and what has been written. */
  datatype State = State(bits: nat, data: nat, out: Bytes)

  function Pow2(n: nat): (p: nat)
    ensures p > 0
  {
    if n == 0 then 1 else 2 * Pow2(n - 1)
  }

  function Feed(st: State, c: CodeUnit): State {
    var v := Value(c);
    if v == -1 then st
    else
      var data := st.data * 64 + v;
      var bits := st.bits + 6;
      if bits < 8 then st.(bits := bits, data := data)
      else State(bits - 8, data % Pow2(bits - 8),
                 if c == PAD then st.out else st.out + [data / Pow2(bits - 8) % 256])
  }

  function FeedAll(st: State, s: Text): State {
    if s == [] then st else Feed(FeedAll(st, s[..|s| - 1]), s[|s| - 1])
  }

  lemma {:induction false} FeedAppend(st: State, a: Text, b: Text)
    ensures FeedAll(st, a + b) == FeedAll(FeedAll(st, a), b)
  {
    if b == [] {
      assert a + b == a;
    } else {
      var n := |b| - 1;
      assert (a + b)[..|a + b| - 1] == a + b[..n];
      FeedAppend(st, a, b[..n]);
    }
  }

  lemma FeedLast(s: Text, c: CodeUnit)
    ensures FeedAll(START, s + [c]) == Feed(FeedAll(START, s), c)
  {
    assert (s + [c])[..|s|] == s;
  }

  const START := State(0, 0, [])

  function LegalCount(s: Text): nat {
    if s == [] then 0 else LegalCount(s[..|s| - 1]) + if Legal(s[|s| - 1]) then 1 else 0
  }

  /** One legal character, by the number of bits left over before it. */
  lemma FeedCases(st: State, c: CodeUnit)
    requires Legal(c)
    ensures var data, r := st.data * 64 + Value(c), Feed(st, c);
            var unit := if st.bits == 2 then 1 else if st.bits == 4 then 4 else 16;
            var out := if c == PAD then [] else [data / unit % 256];
            && (st.bits == 0 ==> r == st.(bits := 6, data := data))
            && (st.bits == 2 ==> r == State(0, 0, st.out + out))
            && (st.bits == 4 ==> r == State(2, data % 4, st.out + out))
            && (st.bits == 6 ==> r == State(4, data % 16, st.out + out))
  {
    Powers();
    assert st.out + [] == st.out;
  }

  lemma Powers()
    ensures Pow2(0) == 1 && Pow2(2) == 4 && Pow2(4) == 16
  {
    assert Pow2(2) == 4;
  }

  lemma SixTimes(q: nat, r: nat)
    requires r < 4
    ensures 6 * (4 * q + r) % 8 == if r == 0 then 0 else 8 - 2 * r
  {
    if r == 0 {
      assert 6 * (4 * q + r) == 8 * (3 * q);
    } else {
      assert 6 * (4 * q + r) == 8 * (3 * q + r - 1) + (8 - 2 * r);
    }
  }

  lemma SixMore(n: nat)
    ensures var b := 6 * n % 8; b in {0, 2, 4, 6} && 6 * (n + 1) % 8 == if b == 0 then 6 else b - 2
    ensures 6 * n % 8 == 0 <==> n % 4 == 0
  {
    var q, r := n / 4, n % 4;
    assert n == 4 * q + r;
    SixTimes(q, r);
    if r < 3 {
      SixTimes(q, r + 1);
    } else {
      SixTimes(q + 1, 0);
    }
  }

  /** Bits are left over exactly when the legal characters do not come in fours. */
  lemma {:induction false} LeftBits(s: Text)
    ensures FeedAll(START, s).bits == 6 * LegalCount(s) % 8
  {
    hide Value, Pow2, Feed, Legal;
    if s != [] {
      var c := s[|s| - 1];
      LeftBits(s[..|s| - 1]);
      SixMore(LegalCount(s[..|s| - 1]));
      if Legal(c) {
        FeedCases(FeedAll(START, s[..|s| - 1]), c);
      } else {
        FeedIllegal(FeedAll(START, s[..|s| - 1]), c);
      }
    }
  }

  lemma FeedIllegal(st: State, c: CodeUnit)
    requires !Legal(c)
    ensures Feed(st, c) == st
  {
  }

  /** The legal code units of a text, in order. */
  function Legals(s: Text): Text {
    if s == [] then [] else Legals(s[..|s| - 1]) + if Legal(s[|s| - 1]) then [s[|s| - 1]] else []
  }

  /** What is illegal is passed over, wherever it stands. */
  lemma {:induction false} IllegalIsSkipped(st: State, s: Text)
    ensures FeedAll(st, s) == FeedAll(st, Legals(s))
  {
    hide Feed, Legal;
    if s != [] {
      var n := |s| - 1;
      IllegalIsSkipped(st, s[..n]);
      if Legal(s[n]) {
        assert Legals(s)[..|Legals(s)| - 1] == Legals(s[..n]);
      } else {
        FeedIllegal(FeedAll(st, s[..n]), s[n]);
        assert Legals(s) == Legals(s[..n]);
      }
    }
  }

  function Unless(c: CodeUnit, b: Byte): Bytes { if c == PAD then [] else [b] }

  lemma FirstTwoFeed(out: Bytes, c: CodeUnit, d: CodeUnit)
    requires Legal(c) && Legal(d)
    ensures var v := Value(c) * 64 + Value(d);
            Value(c) >= 0 && Value(d) >= 0
            && Feed(Feed(State(0, 0, out), c), d) == State(4, v % 16, out + Unless(d, v / 16 % 256))
  {
    hide Feed;
    FeedCases(State(0, 0, out), c);
    FeedCases(State(6, Value(c), out), d);
  }

  lemma LaterFeeds(out: Bytes, n: nat, c: CodeUnit)
    requires Legal(c)
    ensures var v := n * 64 + Value(c);
            && Value(c) >= 0
            && Feed(State(4, n, out), c) == State(2, v % 4, out + Unless(c, v / 4 % 256))
            && Feed(State(2, n, out), c) == State(0, 0, out + Unless(c, v % 256))
  {
    hide Feed;
    FeedCases(State(4, n, out), c);
    FeedCases(State(2, n, out), c);
  }

  /** Four legal code units are a number of 24 bits and give its three bytes, less those that end
      with a padding character. */
  lemma GroupDecodes(out: Bytes, q: Text)
    requires |q| == 4 && Legal(q[0]) && Legal(q[1]) && Legal(q[2]) && Legal(q[3])
    ensures var v := GroupValue(q);
            FeedAll(State(0, 0, out), q)
            == State(0, 0, out + Unless(q[1], v / 0x1_0000 % 0x100) + Unless(q[2], v / 0x100 % 0x100)
                               + Unless(q[3], v % 0x100))
  {
    hide Feed, Legal, Value, FeedAll, GroupValue, Unless;
    FeedFour(State(0, 0, out), q);
    LegalValues(q);
    GroupParts(q);
    FirstTwoFeed(out, q[0], q[1]);
    var v := Value(q[0]) * 64 + Value(q[1]);
    var one := out + Unless(q[1], v / 16 % 256);
    LaterFeeds(one, v % 16, q[2]);
    var w := v % 16 * 64 + Value(q[2]);
    LaterFeeds(one + Unless(q[2], w / 4 % 256), w % 4, q[3]);
  }

  lemma LegalValues(q: Text)
    requires |q| == 4 && Legal(q[0]) && Legal(q[1]) && Legal(q[2]) && Legal(q[3])
    ensures Value(q[0]) >= 0 && Value(q[1]) >= 0 && Value(q[2]) >= 0 && Value(q[3]) >= 0
  {
  }

  lemma ThreeBytes(x: int, y: int, z: int)
    requires 0 <= x < 256 && 0 <= y < 256 && 0 <= z < 256
    ensures var v := x * 0x1_0000 + y * 0x100 + z; v / 0x1_0000 % 0x100 == x && v / 0x100 % 0x100 == y && v % 0x100 == z
  {
    var v := x * 0x1_0000 + y * 0x100 + z;
    assert v / 0x100 == x * 0x100 + y;
    assert v / 0x1_0000 == x;
  }

  lemma SixteenTimes(q: int, r: int)
    requires 0 <= r < 16
    ensures (16 * q + r) / 16 == q && (16 * q + r) % 16 == r
  {
  }

  lemma FourTimes(q: int, r: int)
    requires 0 <= r < 4
    ensures (4 * q + r) / 4 == q && (4 * q + r) % 4 == r
  {
  }

  lemma GroupBytes(a: int, b: int, c: int, d: int)
    requires 0 <= a < 64 && 0 <= b < 64 && 0 <= c < 64 && 0 <= d < 64
    ensures var v, w, x := a * 0x4_0000 + b * 0x1000 + c * 0x40 + d, a * 64 + b, (a * 64 + b) % 16 * 64 + c;
            && v / 0x1_0000 % 0x100 == w / 16 % 256 && v / 0x100 % 0x100 == x / 4 % 256
            && v % 0x100 == (x % 4 * 64 + d) % 256
  {
    var b1, b0, c1, c0 := b / 16, b % 16, c / 4, c % 4;
    SixteenTimes(4 * a + b1, b0);
    FourTimes(16 * b0 + c1, c0);
    ThreeBytes(4 * a + b1, 16 * b0 + c1, 64 * c0 + d);
  }

  lemma GroupParts(q: Text)
    requires |q| == 4 && Legal(q[0]) && Legal(q[1]) && Legal(q[2]) && Legal(q[3])
    ensures var v, w := GroupValue(q), Value(q[0]) * 64 + Value(q[1]);
            var x := w % 16 * 64 + Value(q[2]);
            && v / 0x1_0000 % 0x100 == w / 16 % 256 && v / 0x100 % 0x100 == x / 4 % 256
            && v % 0x100 == (x % 4 * 64 + Value(q[3])) % 256
  {
    hide Value;
    LegalValues(q);
    GroupBytes(Value(q[0]), Value(q[1]), Value(q[2]), Value(q[3]));
  }

  function IndexOf(s: Text, c: CodeUnit): (i: int)
    ensures -1 <= i < |s|
    ensures i == -1 ==> c !in s
    ensures i >= 0 ==> s[i] == c && c !in s[..i]
  {
    if s == [] then -1
    else if s[0] == c then 0
    else
      var i := IndexOf(s[1..], c);
      if i == -1 then -1 else i + 1
  }

  /** The size of the array that decode creates before it looks at the characters. */
  function ResultLength(data: Text, offset: nat): nat
    requires offset <= |data|
  {
    var found := IndexOf(data, PAD) - offset;
    var dataLength := if found < 0 then |data| - offset else found;
    dataLength / 4 * 3 + dataLength % 4 * 2 / 3
  }

  /** An array of n empty slots into which out has been written from the front, growing if it must. */
  function Written(out: Bytes, n: nat): seq<Option<Byte>> {
    seq(Max(|out|, n), k requires 0 <= k < Max(|out|, n) => if k < |out| then Some(out[k]) else None)
  }

  lemma WriteNone(n: nat)
    ensures Written([], n) == seq(n, _ => None)
  {
  }

  lemma WriteOne(out: Bytes, byte: Byte, n: nat)
    ensures var w := Written(out, n);
            |w| >= |out| &&
            Written(out + [byte], n) == if |out| < |w| then w[|out| := Some(byte)] else w + [Some(byte)]
  {
  }

  /** The variables of the decoding loop hold the state st. */
  ghost predicate Holds(st: State, n: nat, leftbits: nat, leftdata: nat, idx: nat, result: seq<Option<Byte>>) {
    leftbits == st.bits && leftdata == st.data && idx == |st.out| && result == Written(st.out, n)
  }

  /** The body of the decoding loop. */
  method DecodeOne(code: CodeUnit, leftbits0: nat, leftdata0: nat, idx0: nat, result0: seq<Option<Byte>>,
                   ghost st: State, ghost n: nat)
    returns (leftbits: nat, leftdata: nat, idx: nat, result: seq<Option<Byte>>)
    requires Holds(st, n, leftbits0, leftdata0, idx0, result0)
    ensures Holds(Feed(st, code), n, leftbits, leftdata, idx, result)
  {
    hide Written, Pow2, ToValue;
    leftbits, leftdata, idx, result := leftbits0, leftdata0, idx0, result0;
    var c := ToValue(code % 128);
    var padding := code == PAD;
    if c == -1 {
      return;
    }
    leftdata := leftdata * 64 + c;
    leftbits := leftbits + 6;
    if leftbits >= 8 {
      leftbits := leftbits - 8;
      if !padding {
        var byte := leftdata / Pow2(leftbits) % 256;
        WriteOne(st.out, byte, n);
        result := if idx < |result| then result[idx := Some(byte)] else result + [Some(byte)];
        idx := idx + 1;
      }
      leftdata := leftdata % Pow2(leftbits);
    }
  }

  /** Throws exactly when the legal characters from offset on, padding included, are not a
      multiple of four in number. */
  method Decode(data: Text, offset: nat) returns (r: Result<seq<Option<Byte>>, string>)
    requires offset <= |data|
    ensures r.Err? <==> LegalCount(data[offset..]) % 4 != 0
    ensures r.Ok? ==> r.value == Written(FeedAll(START, data[offset..]).out, ResultLength(data, offset))
  {
    hide Written, Feed, FeedAll, LegalCount, IndexOf;
    var dataLength := IndexOf(data, PAD) - offset;
    if dataLength < 0 {
      dataLength := |data| - offset;
    }
    var resultLength := dataLength / 4 * 3 + dataLength % 4 * 2 / 3;
    var result: seq<Option<Byte>> := seq(resultLength, _ => None);
    var leftbits: nat := 0;
    var leftdata: nat := 0;
    var idx := 0;
    var i := offset;
    WriteNone(resultLength);
    EmptyFeeds(START);
    assert data[offset..offset] == [];
    while i < |data|
      invariant offset <= i <= |data|
      invariant Holds(FeedAll(START, data[offset..i]), resultLength, leftbits, leftdata, idx, result)
    {
      FeedLast(data[offset..i], data[i]);
      assert data[offset..i + 1] == data[offset..i] + [data[i]];
      leftbits, leftdata, idx, result :=
        DecodeOne(data[i], leftbits, leftdata, idx, result, FeedAll(START, data[offset..i]), resultLength);
      i := i + 1;
    }
    assert data[offset..|data|] == data[offset..];
    LeftBits(data[offset..]);
    SixMore(LegalCount(data[offset..]));
    if leftbits != 0 {
      return Err("Corrupted base64 string");
    }
    return Ok(result);
  }

  /** What counts as legal is the alphabet and the padding character, and every code unit whose
      low seven bits spell one of them. */
  lemma LegalByLowBits(c: CodeUnit)
    ensures Legal(c) <==> c % 128 == PAD || exists v :: 0 <= v < 64 && ToChar(v) == c % 128
  {
    var u := c % 128;
    if u != PAD && Legal(c) {
      assert ToChar(Value(c)) == u;
    }
  }

  lemma CountOneMore(s: Text, c: CodeUnit)
    ensures LegalCount(s + [c]) == LegalCount(s) + if Legal(c) then 1 else 0
  {
    assert (s + [c])[..|s|] == s;
  }

  /** Three legal characters and an emoji. */
  const STRAY: Text := ['A' as int, 'A' as int, 'A' as int, 0xD83D, 0xDE00]

  /** So text with a character outside the alphabet can pass: half of the emoji counts as legal. */
  method StrayHalfPasses() returns (r: Result<seq<Option<Byte>>, string>)
    ensures r.Ok? && LegalCount(STRAY) == 4
  {
    hide LegalCount;
    var a: CodeUnit := 'A' as int;
    CountNothing();
    CountOneMore([], a);
    CountOneMore([a], a);
    CountOneMore([a, a], a);
    CountOneMore([a, a, a], 0xD83D);
    CountOneMore([a, a, a, 0xD83D], 0xDE00);
    assert [] + [a] == [a] && [a] + [a] == [a, a] && [a, a] + [a] == [a, a, a];
    assert [a, a, a] + [0xD83D] == [a, a, a, 0xD83D] && [a, a, a, 0xD83D] + [0xDE00] == STRAY;
    assert STRAY[0..] == STRAY;
    r := Decode(STRAY, 0);
  }

  lemma CountNothing()
    ensures LegalCount([]) == 0
  {
  }

  // ---------- Round trip ----------

  lemma {:induction false} FeedFour(st: State, s: Text)
    requires |s| == 4
    ensures FeedAll(st, s) == Feed(Feed(Feed(Feed(st, s[0]), s[1]), s[2]), s[3])
  {
    assert s[..3][..2] == s[..2] && s[..2][..1] == s[..1] && s[..1][..0] == [];
    assert FeedAll(st, s[..1]) == Feed(st, s[0]);
    assert FeedAll(st, s[..2]) == Feed(Feed(st, s[0]), s[1]);
    assert FeedAll(st, s[..3]) == Feed(Feed(Feed(st, s[0]), s[1]), s[2]);
  }

  /** The first two characters of a group deliver its first byte. */
  lemma FirstFeeds(out: Bytes, a: Byte, v: nat)
    requires a % 4 * 16 <= v < a % 4 * 16 + 16
    ensures Feed(Feed(State(0, 0, out), ToChar(a / 4)), ToChar(v)) == State(4, v % 16, out + [a])
  {
    hide Feed, Value, ToChar;
    TablesAgree(a / 4);
    TablesAgree(v);
    FeedCases(State(0, 0, out), ToChar(a / 4));
    FeedCases(State(6, a / 4, out), ToChar(v));
    assert (a / 4 * 64 + v) / 16 == a;
    assert (a / 4 * 64 + v) % 16 == v % 16;
  }

  lemma SecondFeeds(out: Bytes, b: Byte, v: nat)
    requires b % 16 * 4 <= v < b % 16 * 4 + 4
    ensures Feed(State(4, b / 16, out), ToChar(v)) == State(2, v % 4, out + [b])
  {
    hide Feed, Value, ToChar;
    TablesAgree(v);
    FeedCases(State(4, b / 16, out), ToChar(v));
    assert (b / 16 * 64 + v) / 4 == b;
    assert (b / 16 * 64 + v) % 4 == v % 4;
  }

  lemma ThirdFeeds(out: Bytes, c: Byte)
    ensures Feed(State(2, c / 64, out), ToChar(c % 64)) == State(0, 0, out + [c])
  {
    hide Feed, Value, ToChar;
    TablesAgree(c % 64);
    FeedCases(State(2, c / 64, out), ToChar(c % 64));
    assert c / 64 * 64 + c % 64 == c;
  }

  lemma PadFeeds(st: State)
    requires st.data == 0
    ensures st.bits == 4 ==> Feed(st, PAD) == st.(bits := 2)
    ensures st.bits == 2 ==> Feed(st, PAD) == st.(bits := 0)
  {
    hide Feed;
    FeedCases(st, PAD);
    assert st.out + [] == st.out;
  }

  lemma QuadFeeds(out: Bytes, a: Byte, b: Byte, c: Byte)
    ensures FeedAll(State(0, 0, out), Quad(a, b, c)) == State(0, 0, out + [a, b, c])
  {
    hide Feed, ToChar, FeedAll;
    FeedFour(State(0, 0, out), Quad(a, b, c));
    FirstFeeds(out, a, a % 4 * 16 + b / 16);
    assert (a % 4 * 16 + b / 16) % 16 == b / 16;
    SecondFeeds(out + [a], b, b % 16 * 4 + c / 64);
    assert (b % 16 * 4 + c / 64) % 4 == c / 64;
    ThirdFeeds(out + [a] + [b], c);
    assert out + [a] + [b] + [c] == out + [a, b, c];
  }

  lemma OneLeftFeeds(out: Bytes, a: Byte)
    ensures FeedAll(State(0, 0, out), OneLeft(a)) == State(0, 0, out + [a])
  {
    hide Feed, ToChar, FeedAll;
    FeedFour(State(0, 0, out), OneLeft(a));
    FirstFeeds(out, a, a % 4 * 16);
    assert a % 4 * 16 % 16 == 0;
    PadFeeds(State(4, 0, out + [a]));
    PadFeeds(State(2, 0, out + [a]));
  }

  lemma TwoLeftFeed(out: Bytes, a: Byte, b: Byte)
    ensures FeedAll(State(0, 0, out), TwoLeft(a, b)) == State(0, 0, out + [a, b])
  {
    hide Feed, ToChar, FeedAll;
    FeedFour(State(0, 0, out), TwoLeft(a, b));
    FirstFeeds(out, a, a % 4 * 16 + b / 16);
    assert (a % 4 * 16 + b / 16) % 16 == b / 16;
    SecondFeeds(out + [a], b, b % 16 * 4);
    assert b % 16 * 4 % 4 == 0;
    PadFeeds(State(2, 0, out + [a] + [b]));
    assert out + [a] + [b] == out + [a, b];
  }

  lemma EmptyFeeds(st: State)
    ensures FeedAll(st, []) == st
  {
  }

  lemma {:induction false} EncodedFeeds(out: Bytes, d: Bytes)
    ensures FeedAll(State(0, 0, out), Encoded(d)) == State(0, 0, out + d)
    decreases |d|
  {
    hide FeedAll, Feed, Quad, OneLeft, TwoLeft;
    EmptyFeeds(State(0, 0, out));
    if |d| == 0 {
      assert out + d == out;
    } else if |d| == 1 {
      assert d == [d[0]];
      OneLeftFeeds(out, d[0]);
    } else if |d| == 2 {
      assert d == [d[0], d[1]];
      TwoLeftFeed(out, d[0], d[1]);
    } else {
      var q := Quad(d[0], d[1], d[2]);
      FeedAppend(State(0, 0, out), q, Encoded(d[3..]));
      QuadFeeds(out, d[0], d[1], d[2]);
      EncodedFeeds(out + [d[0], d[1], d[2]], d[3..]);
      assert out + [d[0], d[1], d[2]] + d[3..] == out + d;
    }
  }

  function PadStart(n: nat): int { if n % 3 == 0 then -1 else n / 3 * 4 + n % 3 + 1 }

  lemma OneGroupMore(n: nat)
    ensures (n + 3) / 3 == n / 3 + 1 && (n + 3) % 3 == n % 3
  {
  }

  /** Where the padding of an encoding starts: what decode sizes its result by. */
  lemma {:induction false} EncodedPadding(d: Bytes)
    ensures |Encoded(d)| == (|d| + 2) / 3 * 4 && IndexOf(Encoded(d), PAD) == PadStart(|d|)
  {
    hide ToChar, Value, IndexOf;
    var s := Encoded(d);
    if |d| == 1 {
      TablesAgree(d[0] / 4);
      TablesAgree(d[0] % 4 * 16);
      PadAt(s, 2);
    } else if |d| == 2 {
      TablesAgree(d[0] / 4);
      TablesAgree(d[0] % 4 * 16 + d[1] / 16);
      TablesAgree(d[1] % 16 * 4);
      PadAt(s, 3);
    } else if |d| > 2 {
      OneGroupMore(|d| - 3);
      OneGroupMore(|d| - 1);
      EncodedPadding(d[3..]);
      QuadHasNoPad(d[0], d[1], d[2]);
      PadAfter(Quad(d[0], d[1], d[2]), Encoded(d[3..]));
    }
  }

  lemma QuadHasNoPad(a: Byte, b: Byte, c: Byte)
    ensures PAD !in Quad(a, b, c)
  {
    hide ToChar;
    TablesAgree(a / 4);
    TablesAgree(a % 4 * 16 + b / 16);
    TablesAgree(b % 16 * 4 + c / 64);
    TablesAgree(c % 64);
  }

  lemma PadAfter(q: Text, rest: Text)
    requires PAD !in q
    ensures IndexOf(q + rest, PAD) == if IndexOf(rest, PAD) == -1 then -1 else |q| + IndexOf(rest, PAD)
  {
    hide IndexOf;
    var i := IndexOf(rest, PAD);
    var s := q + rest;
    if i != -1 {
      forall k | 0 <= k < |q| + i ensures s[k] != PAD {
        if k < |q| {
          assert q[k] in q;
        } else {
          assert rest[..i][k - |q|] in rest[..i];
        }
      }
      PadAt(s, |q| + i);
    } else {
      forall k | 0 <= k < |s| ensures s[k] != PAD {
        assert s[k] in if k < |q| then q else rest;
      }
    }
  }

  lemma PadAt(s: Text, i: nat)
    requires i < |s| && s[i] == PAD && forall k :: 0 <= k < i ==> s[k] != PAD
    ensures IndexOf(s, PAD) == i
  {
    hide IndexOf;
    var j := IndexOf(s, PAD);
    assert s[i] in s;
  }

  /** Main result: what Encode returns, Decode accepts, filling every slot of its pre-sized result
      with the original bytes. */
  lemma RoundTrip(d: Bytes)
    ensures LegalCount(Encoded(d)) % 4 == 0
    ensures Written(FeedAll(START, Encoded(d)).out, ResultLength(Encoded(d), 0))
         == seq(|d|, k requires 0 <= k < |d| => Some(d[k]))
  {
    hide Encoded, FeedAll, LegalCount, IndexOf;
    EncodedFeeds([], d);
    EncodedPadding(d);
    LeftBits(Encoded(d));
    SixMore(LegalCount(Encoded(d)));
    assert [] + d == d;
    SizeFits(Encoded(d), |d|);
  }

  /** The pre-sized result has one slot for each byte encoded. */
  lemma SizeFits(s: Text, n: nat)
    requires |s| == (n + 2) / 3 * 4 && IndexOf(s, PAD) == PadStart(n)
    ensures ResultLength(s, 0) == n
  {
    hide IndexOf;
    var q, r := n / 3, n % 3;
    assert n == 3 * q + r && (n + 2) / 3 == if r == 0 then q else q + 1;
    var dataLength := if r == 0 then 4 * q else 4 * q + r + 1;
    assert dataLength / 4 == q && dataLength % 4 == if r == 0 then 0 else r + 1;
  }

  method EncodeThenDecode(d: Bytes) returns (r: Result<seq<Option<Byte>>, string>)
    ensures r.Ok? && |r.value| == |d| && forall k :: 0 <= k < |d| ==> r.value[k] == Some(d[k])
  {
    var s := Encode(d);
    RoundTrip(d);
    assert s[0..] == s;
    r := Decode(s, 0);
  }
}
