/** keyInput of ui.js: an edit of the hidden text field becomes backspaces and key presses. The
    code compares and sends UTF-16 code units. */
module KeyInputModel {
  import opened Common

  const DEFAULT_LEN := 100

  /** new Array(100).join("_") */
  const FILLER: Text := seq(DEFAULT_LEN - 1, _ => '_' as int)

  /** The length of the longest common prefix. */
  function CommonPrefix(a: Text, b: Text): (n: nat)
    ensures n <= |a| && n <= |b| && a[..n] == b[..n]
    ensures n < |a| && n < |b| ==> a[n] != b[n]
  {
    if a == [] || b == [] || a[0] != b[0] then 0
    else
      var n := 1 + CommonPrefix(a[1..], b[1..]);
      assert a[..n] == [a[0]] + a[1..][..n - 1] && b[..n] == [b[0]] + b[1..][..n - 1];
      n
  }

  lemma PrefixIs(a: Text, b: Text, n: nat)
    requires n <= |a| && n <= |b| && a[..n] == b[..n]
    ensures n <= CommonPrefix(a, b)
    ensures n == |a| || n == |b| || a[n] != b[n] ==> n == CommonPrefix(a, b)
  {
    var m := CommonPrefix(a, b);
    assert forall k :: 0 <= k < n ==> a[k] == a[..n][k] && b[k] == b[..n][k];
    assert forall k :: 0 <= k < m ==> a[k] == a[..m][k] && b[k] == b[..m][k];
  }

  /** No other edit of the end of the old text does with fewer backspaces. */
  lemma FewestBackspaces(a: Text, b: Text, backspaces: nat, sent: Text)
    requires backspaces <= |a| && a[..|a| - backspaces] + sent == b
    ensures backspaces >= |a| - CommonPrefix(a, b)
  {
    var n := |a| - backspaces;
    assert b[..n] == a[..n];
    PrefixIs(a, b, n);
  }

  /** The codes sent; a position past the end of the text has the code NaN. */
  datatype Key = Code(unit: CodeUnit) | NotANumber

  /** charAt and charCodeAt at positions before length, some of which may lie past the end. */
  function Keys(text: Text, length: nat): seq<Key> {
    seq(length, i requires 0 <= i < length => if i < |text| then Code(text[i]) else NotANumber)
  }

  /** The keys from start on: none when start lies past the end. */
  function KeysFrom(text: Text, length: nat, start: nat): seq<Key> {
    if start <= length then Keys(text, length)[start..] else []
  }

  /** Where sending starts: after the common prefix, or nowhere when the text only got shorter. */
  function Start(a: Text, b: Text, length: nat): nat {
    if length < |a| && CommonPrefix(a, b) == length then |a| else CommonPrefix(a, b)
  }

  /** The common prefix and the keys sent are the keys of the new text. */
  lemma CommonKeys(a: Text, b: Text, length: nat)
    requires length >= |b|
    ensures Keys(a, CommonPrefix(a, b)) + KeysFrom(b, length, Start(a, b, length)) == Keys(b, length)
  {
    var n := CommonPrefix(a, b);
    assert forall j :: 0 <= j < n ==> a[j] == a[..n][j] && b[j] == b[..n][j];
    assert Keys(a, n) == Keys(b, length)[..n];
  }

  class KeyboardInput {
    /** UI.lastKeyboardinput, and the field's value when it has been reset. */
    var last: Text
    var resetTo: Option<Text>

    constructor ()
      ensures last == FILLER
    {
      last := FILLER;
      resetTo := None;
    }

    method Reset()
      modifies this
      ensures last == FILLER && resetTo == Some(FILLER)
    {
      resetTo := Some(FILLER);
      last := FILLER;
    }

    /** The text before the edit: the last one seen, or the filler if that is empty. */
    function Before(): Text
      reads this
    {
      if last == [] then FILLER else last
    }

    /** Code units to send, or minus those to remove, and the backspaces before them. */
    method Diff(oldValue: Text, newValue: Text, newLen: nat) returns (inputs: int, backspaces: nat)
      requires newLen >= |newValue|
      ensures backspaces == |oldValue| - CommonPrefix(oldValue, newValue)
      ensures newLen - inputs == Start(oldValue, newValue, newLen)
    {
      var oldLen := |oldValue|;
      inputs := newLen - oldLen;
      backspaces := if inputs < 0 then -inputs else 0;
      var i := 0;
      while i < Min(oldLen, newLen)
        invariant 0 <= i <= Min(oldLen, newLen) && i <= |newValue|
        invariant oldValue[..i] == newValue[..i]
      {
        if i >= |newValue| || newValue[i] != oldValue[i] {
          inputs := newLen - i;
          backspaces := oldLen - i;
          break;
        }
        i := i + 1;
      }
      PrefixIs(oldValue, newValue, i);
    }

    method SendKeys(newValue: Text, newLen: nat, start: nat) returns (sent: seq<Key>)
      ensures sent == KeysFrom(newValue, newLen, start)
    {
      sent := [];
      var i := start;
      while i < newLen
        invariant start <= i && (i <= newLen || i == start)
        invariant sent == if start <= newLen then Keys(newValue, newLen)[start..i] else []
      {
        sent := sent + [if i < |newValue| then Code(newValue[i]) else NotANumber];
        i := i + 1;
      }
    }

    /** caret: selectionStart, where the browser has it. */
    method KeyInput(newValue: Text, caret: Option<nat>) returns (backspaces: nat, sent: seq<Key>)
      modifies this
      ensures var length := if caret.Some? then Max(caret.value, |newValue|) else |newValue|;
              && backspaces <= |old(Before())|
              && Keys(old(Before()), |old(Before())| - backspaces) + sent == Keys(newValue, length)
              && backspaces == |old(Before())| - CommonPrefix(old(Before()), newValue)
              && last == (if length > 2 * DEFAULT_LEN || length < 1 then FILLER else newValue)
    {
      hide CommonPrefix, Keys, KeysFrom, Start;
      if last == [] {
        Reset();
      }
      var oldValue := last;
      var newLen := |newValue|;
      if caret.Some? {
        newLen := Max(caret.value, |newValue|);
      }
      var inputs;
      inputs, backspaces := Diff(oldValue, newValue, newLen);
      sent := SendKeys(newValue, newLen, newLen - inputs);
      CommonKeys(oldValue, newValue, newLen);
      if newLen > 2 * DEFAULT_LEN {
        Reset();
      } else if newLen < 1 {
        Reset();
      } else {
        last := newValue;
      }
    }
  }

  lemma KeyAt(a: Text, text: Text, n: nat, sent: seq<Key>, length: nat, k: nat)
    requires k < n <= |a| && Keys(a, n) + sent == Keys(text, length)
    ensures k < |text| && a[k] == text[k]
  {
    assert Keys(text, length)[k] == Keys(a, n)[k];
  }

  /** With the caret inside the text, deleting and typing gives exactly the new text; a caret
      past its end sends keys that are no codes. */
  lemma TypedText(a: Text, text: Text, backspaces: nat, sent: seq<Key>, length: nat)
    requires backspaces <= |a| && length >= |text|
    requires Keys(a, |a| - backspaces) + sent == Keys(text, length)
    ensures (forall k :: 0 <= k < |sent| ==> sent[k].Code?) <==> length == |text|
    ensures length == |text| ==>
              |sent| == |text| - (|a| - backspaces) && a[..|a| - backspaces] <= text
              && forall k :: 0 <= k < |sent| ==> sent[k] == Code(text[|a| - backspaces + k])
  {
    var n := |a| - backspaces;
    var all := Keys(text, length);
    assert |all| == length && n <= length;
    if n > 0 {
      KeyAt(a, text, n, sent, length, n - 1);
    }
    forall k | 0 <= k < n ensures a[k] == text[k] {
      KeyAt(a, text, n, sent, length, k);
    }
    forall k | 0 <= k < |sent| ensures sent[k] == all[n + k] {
    }
    if length > |text| {
      assert sent[|text| - n] == all[|text|];
    }
  }

  // ---------- Characters ----------

  /** A code unit that is a character by itself. */
  predicate Character(k: Key) { k.Code? && !Surrogate(k.unit) }

  /** The keys sent are characters exactly with the caret inside the text and no half of a
      character among the code units sent. */
  lemma TypedCharacters(a: Text, text: Text, backspaces: nat, sent: seq<Key>, length: nat)
    requires backspaces <= |a| && length >= |text|
    requires Keys(a, |a| - backspaces) + sent == Keys(text, length)
    ensures (forall k :: 0 <= k < |sent| ==> Character(sent[k]))
            <==> length == |text| && forall i :: |a| - backspaces <= i < |text| ==> !Surrogate(text[i])
  {
    TypedText(a, text, backspaces, sent, length);
    var n := |a| - backspaces;
    if length == |text| {
      forall i | n <= i < |text| ensures sent[i - n] == Code(text[i]) {
        assert sent[i - n] == Code(text[n + (i - n)]);
      }
    }
  }

  predicate Pair(t: Text, i: nat) {
    i + 1 < |t| && 0xD800 <= t[i] < 0xDC00 && 0xDC00 <= t[i + 1] < 0xE000
  }

  /** The number of characters of a text, a surrogate pair being one. */
  function Characters(t: Text): nat {
    if t == [] then 0 else if Pair(t, 0) then 1 + Characters(t[2..]) else 1 + Characters(t[1..])
  }

  lemma {:induction false} CharactersAreUnits(t: Text)
    ensures Characters(t) <= |t|
    ensures Characters(t) == |t| <==> forall i: nat :: !Pair(t, i)
  {
    if t != [] {
      if Pair(t, 0) {
        CharactersAreUnits(t[2..]);
      } else {
        CharactersAreUnits(t[1..]);
        assert forall i: nat :: Pair(t[1..], i) ==> Pair(t, i + 1);
        assert forall i: nat :: Pair(t, i) ==> i > 0 && Pair(t[1..], i - 1);
      }
    }
  }

  /** As many backspaces as characters to remove exactly when no surrogate pair is removed. */
  lemma BackspacesForCharacters(a: Text, b: Text)
    ensures var kept := CommonPrefix(a, b);
            |a| - kept == Characters(a[kept..]) <==> forall i: nat :: !Pair(a[kept..], i)
  {
    CharactersAreUnits(a[CommonPrefix(a, b)..]);
  }

  /** A run: an emoji is typed, changed into its neighbour, and deleted. Its halves are sent one by
      one, the change sends one half alone, and the deletion takes two backspaces. */
  method EmojiRun() returns (typed: seq<Key>, changed: seq<Key>, backspaces: nat, deletions: nat)
    ensures typed == [Code(0xD83D), Code(0xDE00)] && !Character(typed[0]) && !Character(typed[1])
    ensures backspaces == 1 && changed == [Code(0xDE01)] && !Character(changed[0])
    ensures deletions == 2 && Characters([0xD83D, 0xDE01]) == 1
  {
    var a: Text := ['a' as int];
    var smile: Text := a + [0xD83D, 0xDE00];
    var grin: Text := a + [0xD83D, 0xDE01];
    var field := new KeyboardInput();
    var b, sent := field.KeyInput(a, None);
    PrefixIs(a, smile, 1);
    b, typed := field.KeyInput(smile, None);
    Sent(a, smile, 1, typed);
    PrefixIs(smile, grin, 2);
    backspaces, changed := field.KeyInput(grin, None);
    Sent(smile, grin, 2, changed);
    PrefixIs(grin, a, 1);
    deletions, sent := field.KeyInput(a, None);
    assert Characters([0xD83D, 0xDE01][2..]) == 0;
  }

  lemma Sent(a: Text, text: Text, kept: nat, sent: seq<Key>)
    requires kept <= |a| && Keys(a, kept) + sent == Keys(text, |text|)
    ensures kept <= |text| && |sent| == |text| - kept && forall k :: 0 <= k < |sent| ==> sent[k] == Code(text[kept + k])
  {
    TypedText(a, text, |a| - kept, sent, |text|);
  }
}
