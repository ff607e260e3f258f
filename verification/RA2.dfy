/** The nonce counter of RA2Cipher (ra2.js), incremented in place with carry, and what it
    means for messages sent one after another. The cipher is an abstract invertible function. */
module RA2 {
  import opened Common

  /** AES-EAX: nonce, additional data and message or ciphertext. */
  datatype Aead = Aead(encrypt: (Bytes, Bytes, Bytes) -> Bytes, decrypt: (Bytes, Bytes, Bytes) -> Option<Bytes>)

  const TAG := 16

  /** Decryption undoes encryption, which adds a tag of 16 bytes. */
  ghost predicate Invertible(a: Aead) {
    && (forall nonce, ad, m :: a.decrypt(nonce, ad, a.encrypt(nonce, ad, m)) == Some(m))
    && (forall nonce, ad, m :: |a.encrypt(nonce, ad, m)| == |m| + TAG)
  }

  function LittleEndian(c: Bytes): nat {
    if c == [] then 0 else c[0] + 256 * LittleEndian(c[1..])
  }

  /** One increment, least significant byte first. */
  function Bump(c: Bytes): (r: Bytes)
    ensures |r| == |c|
  {
    if c == [] then []
    else if c[0] == 255 then [0] + Bump(c[1..])
    else [c[0] + 1] + c[1..]
  }

  lemma {:induction false} LittleEndianBound(c: Bytes)
    ensures LittleEndian(c) < Pow256(|c|)
  {
    if c != [] {
      LittleEndianBound(c[1..]);
    }
  }

  /** The carry chain adds one, modulo the size of the counter. */
  lemma {:induction false} BumpAddsOne(c: Bytes)
    ensures LittleEndian(Bump(c)) == if LittleEndian(c) + 1 == Pow256(|c|) then 0 else LittleEndian(c) + 1
  {
    if c != [] {
      var rest := c[1..];
      BumpAddsOne(rest);
      LittleEndianBound(rest);
      if c[0] == 255 {
        assert ([0] + Bump(rest))[1..] == Bump(rest);
      } else {
        assert ([c[0] + 1] + rest)[1..] == rest;
      }
    }
  }

  lemma Carry(c: Bytes, i: nat)
    requires i < |c|
    ensures Bump(c[i..]) == if c[i] == 255 then [0] + Bump(c[i + 1..]) else [c[i] + 1] + c[i + 1..]
  {
    assert c[i..][1..] == c[i + 1..];
  }

  /** Byte i of was incremented: the carry goes on, or the increment is complete. */
  lemma OneByte(was: Bytes, before: Bytes, after: Bytes, i: nat)
    requires i < |was| == |before| && before[i..] == was[i..] && before[..i] + Bump(was[i..]) == Bump(was)
    requires after == before[i := if was[i] == 255 then 0 else was[i] + 1]
    ensures was[i] == 255 ==> after[i + 1..] == was[i + 1..] && after[..i + 1] + Bump(was[i + 1..]) == Bump(was)
    ensures was[i] != 255 ==> after == Bump(was)
  {
    hide Bump;
    Carry(was, i);
    var front, rest := before[..i], was[i + 1..];
    assert before[i..][1..] == rest;
    PutOne(before, i, after[i]);
    if was[i] == 255 {
      assert front + [0] + Bump(rest) == front + ([0] + Bump(rest));
    } else {
      assert front + [after[i]] + rest == front + ([after[i]] + rest);
    }
  }

  lemma PutOne(s: Bytes, i: nat, b: Byte)
    requires i < |s|
    ensures s[i := b] == s[..i] + [b] + s[i..][1..]
    ensures s[i := b][i + 1..] == s[i..][1..] && s[i := b][..i + 1] == s[..i] + [b]
  {
  }

  lemma EmptyBump(c: Bytes)
    ensures c == [] ==> Bump(c) == []
  {
  }

  function Bumped(c: Bytes, n: nat): (r: Bytes)
    ensures |r| == |c|
  {
    if n == 0 then c else Bump(Bumped(c, n - 1))
  }

  const ZERO: Bytes := seq(16, _ => 0)

  lemma {:induction false} ZeroIsZero(n: nat)
    ensures LittleEndian(seq(n, _ => 0)) == 0
  {
    if n > 0 {
      ZeroIsZero(n - 1);
      assert seq(n, _ => 0)[1..] == seq(n - 1, _ => 0);
    }
  }

  /** The counter read as a number is the message count modulo 2^128. */
  lemma {:induction false} CounterIsCount(n: nat)
    ensures LittleEndian(Bumped(ZERO, n)) == n % Pow256(16)
  {
    hide Pow256, Bump, LittleEndian;
    PowBig(16);
    if n == 0 {
      ZeroIsZero(16);
    } else {
      CounterIsCount(n - 1);
      BumpAddsOne(Bumped(ZERO, n - 1));
      ModStep(n - 1, Pow256(16));
    }
  }

  lemma PowBig(n: nat)
    requires n > 0
    ensures Pow256(n) > 1
  {
  }

  lemma ModStep(n: nat, m: nat)
    requires m > 1
    ensures (n + 1) % m == if n % m + 1 == m then 0 else n % m + 1
  {
    var q, r := n / m, n % m;
    assert n + 1 == q * m + (r + 1);
    if r + 1 == m {
      assert n + 1 == (q + 1) * m;
      Remainder(n + 1, q + 1, 0, m);
    } else {
      Remainder(n + 1, q, r + 1, m);
    }
  }

  lemma Remainder(n: nat, q: nat, r: nat, m: nat)
    requires r < m && n == q * m + r
    ensures n % m == r
  {
    var d: int := n / m - q;
    assert n % m == r - d * m;
    if d >= 1 {
      Multiple(d - 1, m);
    } else if d <= -1 {
      Multiple(-d - 1, m);
    }
  }

  lemma Multiple(k: nat, m: nat)
    ensures (k + 1) * m >= m
  {
  }

  /** No nonce repeats within the first 2^128 messages. */
  lemma NoncesDiffer(i: nat, j: nat)
    requires i < j < Pow256(16)
    ensures Bumped(ZERO, i) != Bumped(ZERO, j)
  {
    CounterIsCount(i);
    CounterIsCount(j);
    Remainder(i, 0, i, Pow256(16));
    Remainder(j, 0, j, Pow256(16));
  }

  /** The two bytes in front of a message, which are its additional data too. */
  function Header(length: nat): Bytes { [length / 256 % 256, length % 256] }

  /** rQshift16 on a header at position p. */
  function HeaderLength(s: Bytes, p: nat): nat
    requires p + 2 <= |s|
  {
    s[p] as int * 256 + s[p + 1]
  }

  /** A header has room for lengths below 65536, and no others are read back. */
  lemma HeaderReadsBack(length: nat)
    ensures HeaderLength(Header(length), 0) == length % 65536
    ensures HeaderLength(Header(length), 0) == length <==> length < 65536
  {
    var q := length / 256;
    assert length == (q / 256) * 65536 + (q % 256 * 256 + length % 256);
  }

  /** Message number k of a connection on the wire. */
  function Wire(a: Aead, k: nat, message: Bytes): Bytes {
    Header(|message|) + a.encrypt(Bumped(ZERO, k), Header(|message|), message)
  }

  function WireAll(a: Aead, k: nat, messages: seq<Bytes>): Bytes {
    if messages == [] then []
    else
      var n := |messages| - 1;
      WireAll(a, k, messages[..n]) + Wire(a, k + n, messages[n])
  }

  /** How much a reader takes for a message is its length on the wire exactly below 65536 bytes. */
  lemma ReaderTakesAll(a: Aead, k: nat, message: Bytes)
    requires Invertible(a)
    ensures var w := Wire(a, k, message);
            |w| == 2 + |message| + TAG && (2 + HeaderLength(w, 0) + TAG == |w| <==> |message| < 65536)
  {
    HeaderReadsBack(|message|);
  }

  lemma {:induction false} WirePrefix(a: Aead, k: nat, messages: seq<Bytes>, i: nat)
    requires i <= |messages|
    ensures WireAll(a, k, messages[..i]) <= WireAll(a, k, messages)
    decreases |messages|
  {
    if i == |messages| {
      assert messages[..i] == messages;
    } else {
      var n := |messages| - 1;
      assert messages[..n][..i] == messages[..i];
      WirePrefix(a, k, messages[..n], i);
    }
  }

  /** Where message i lies in the stream. */
  lemma WireAt(a: Aead, k: nat, messages: seq<Bytes>, i: nat)
    requires i < |messages|
    ensures var p, s, w := |WireAll(a, k, messages[..i])|, WireAll(a, k, messages), Wire(a, k + i, messages[i]);
            && p + |w| <= |s| && s[p..p + |w|] == w && |WireAll(a, k, messages[..i + 1])| == p + |w|
  {
    hide Wire;
    WirePrefix(a, k, messages, i + 1);
    assert messages[..i + 1][..i] == messages[..i];
    var front, w := WireAll(a, k, messages[..i]), Wire(a, k + i, messages[i]);
    var s := WireAll(a, k, messages);
    assert WireAll(a, k, messages[..i + 1]) == front + w;
    assert s[..|front + w|] == front + w;
    assert s[|front|..|front| + |w|] == s[..|front + w|][|front|..];
  }

  class RA2Cipher {
    const aead: Aead
    const counter: array<Byte>
    /** How many messages have gone through. */
    ghost var count: nat

    ghost predicate Valid()
      reads this, counter
    {
      counter.Length == 16 && counter[..] == Bumped(ZERO, count)
    }

    constructor (aead: Aead)
      ensures Valid() && count == 0 && this.aead == aead && fresh(counter)
    {
      this.aead := aead;
      counter := new Byte[16](_ => 0);
      count := 0;
      new;
      assert counter[..] == ZERO;
    }

    /** The loop increments while bytes overflow; it stops at the first that does not. */
    method Increment()
      requires Valid()
      modifies counter, `count
      ensures Valid() && count == old(count) + 1
    {
      hide Bump;
      ghost var was := counter[..];
      count := count + 1;
      var i := 0;
      var overflowed := true;
      while i < 16 && overflowed
        invariant 0 <= i <= 16 && count == old(count) + 1
        invariant overflowed ==> counter[..][i..] == was[i..] && counter[..][..i] + Bump(was[i..]) == Bump(was)
        invariant !overflowed ==> counter[..] == Bump(was)
        decreases 16 - i, overflowed
      {
        ghost var before := counter[..];
        overflowed := counter[i] == 255;
        counter[i] := if overflowed then 0 else counter[i] + 1;
        assert before[i] == before[i..][0] == was[i..][0];
        OneByte(was, before, counter[..], i);
        if overflowed {
          i := i + 1;
        }
      }
      EmptyBump(was[16..]);
      assert overflowed ==> counter[..][..16] + [] == counter[..];
    }

    method MakeMessage(message: Bytes) returns (res: Bytes)
      requires Valid()
      modifies counter, `count
      ensures Valid() && count == old(count) + 1
      ensures res == Wire(aead, old(count), message)
      ensures var nonce, ad := old(counter[..]), [|message| / 0x100 % 0x100, |message| % 0x100];
              && |nonce| == 16 && LittleEndian(nonce) == old(count) % Pow256(16)
              && res == ad + aead.encrypt(nonce, ad, message)
    {
      hide Pow256, LittleEndian;
      CounterIsCount(count);
      var ad := Header(|message|);
      var encrypted := aead.encrypt(counter[..], ad, message);
      Increment();
      res := ad + encrypted;
    }

    /** None when the authentication tag is wrong; the counter moves on either way. */
    method ReceiveMessage(length: nat, encrypted: Bytes) returns (res: Option<Bytes>)
      requires Valid()
      modifies counter, `count
      ensures Valid() && count == old(count) + 1
      ensures res == aead.decrypt(Bumped(ZERO, old(count)), Header(length), encrypted)
    {
      var ad := Header(length);
      res := aead.decrypt(counter[..], ad, encrypted);
      Increment();
    }
  }

  /** One message read from a stream as ra2.js reads it: a length of two bytes, then the message
      with its tag; nothing until all of it is there. */
  method ReadMessage(cipher: RA2Cipher, s: Bytes, p: nat) returns (read: bool, message: Option<Bytes>, next: nat)
    requires cipher.Valid()
    modifies cipher.counter, cipher`count
    ensures cipher.Valid()
    ensures read <==> p + 2 <= |s| && p + 2 + HeaderLength(s, p) + TAG <= |s|
    ensures !read ==> next == p && cipher.count == old(cipher.count)
    ensures read ==>
              && next == p + 2 + HeaderLength(s, p) + TAG && cipher.count == old(cipher.count) + 1
              && message
              == cipher.aead.decrypt(Bumped(ZERO, old(cipher.count)), Header(HeaderLength(s, p)), s[p + 2..next])
  {
    if |s| < p + 2 || |s| < p + 2 + (s[p] as int * 256 + s[p + 1]) + TAG {
      return false, None, p;
    }
    var length := s[p] as int * 256 + s[p + 1];
    next := p + 2 + length + TAG;
    message := cipher.ReceiveMessage(length, s[p + 2..next]);
    read := true;
  }

  /** A message below 65536 bytes that lies at p is read back, by a reader with the same count. */
  lemma ReadsBack(a: Aead, k: nat, message: Bytes, s: Bytes, p: nat)
    requires Invertible(a) && |message| < 65536
    requires var w := Wire(a, k, message); p + |w| <= |s| && s[p..p + |w|] == w
    ensures var next := p + 2 + |message| + TAG;
            && next == p + |Wire(a, k, message)| <= |s| && HeaderLength(s, p) == |message|
            && a.decrypt(Bumped(ZERO, k), Header(|message|), s[p + 2..next]) == Some(message)
  {
    var w := Wire(a, k, message);
    ReaderTakesAll(a, k, message);
    HeaderReadsBack(|message|);
    assert s[p] == s[p..p + |w|][0] == w[0] && s[p + 1] == s[p..p + |w|][1] == w[1];
    assert s[p + 2..p + |w|] == s[p..p + |w|][2..] == w[2..];
    assert w[2..] == a.encrypt(Bumped(ZERO, k), Header(|message|), message);
  }

  /** Main result: two ends that have handled equally many messages use the same nonces, and any
      messages below 65536 bytes, sent one after another, are read back from the stream. */
  method Converse(sender: RA2Cipher, receiver: RA2Cipher, messages: seq<Bytes>) returns (received: seq<Option<Bytes>>)
    requires sender.Valid() && receiver.Valid() && sender != receiver && sender.counter != receiver.counter
    requires sender.count == receiver.count && sender.aead == receiver.aead && Invertible(sender.aead)
    requires forall k :: 0 <= k < |messages| ==> |messages[k]| < 65536
    modifies sender.counter, sender`count, receiver.counter, receiver`count
    ensures |received| == |messages| && forall k :: 0 <= k < |messages| ==> received[k] == Some(messages[k])
    ensures sender.Valid() && receiver.Valid() && sender.count == receiver.count
  {
    hide Wire, Bumped, Header, HeaderLength, Invertible;
    ghost var a, start := sender.aead, sender.count;
    var stream := SendAll(sender, messages);
    received := [];
    var i, p := 0, 0;
    assert messages[..0] == [] && WireAll(a, start, []) == [];
    while i < |messages|
      invariant i <= |messages| && |received| == i && p == |WireAll(a, start, messages[..i])|
      invariant receiver.Valid() && receiver.count == start + i
      invariant sender.Valid() && sender.count == start + |messages|
      invariant forall k :: 0 <= k < i ==> received[k] == Some(messages[k])
    {
      WireAt(a, start, messages, i);
      ReadsBack(a, start + i, messages[i], stream, p);
      var read, message, next := ReadMessage(receiver, stream, p);
      received := received + [message];
      i, p := i + 1, next;
    }
  }

  method SendAll(sender: RA2Cipher, messages: seq<Bytes>) returns (stream: Bytes)
    requires sender.Valid()
    modifies sender.counter, sender`count
    ensures sender.Valid() && sender.count == old(sender.count) + |messages|
    ensures stream == WireAll(sender.aead, old(sender.count), messages)
  {
    hide Wire;
    stream := [];
    var i := 0;
    while i < |messages|
      invariant i <= |messages| && sender.Valid() && sender.count == old(sender.count) + i
      invariant stream == WireAll(sender.aead, old(sender.count), messages[..i])
    {
      var wire := sender.MakeMessage(messages[i]);
      assert messages[..i + 1][..i] == messages[..i];
      stream := stream + wire;
      i := i + 1;
    }
    assert messages[..i] == messages;
  }
}
