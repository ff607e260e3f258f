/** Datatypes shared by every part of the model. */
module Common {

  datatype Option<+T> = None | Some(value: T)

  datatype Result<+T, +E> = Ok(value: T) | Err(error: E)

  /** One element of a JavaScript Uint8Array. */
  type Byte = x: int | 0 <= x < 256

  type Bytes = seq<Byte>

  /** One element of a JavaScript string: a UTF-16 code unit, which may be half a character. */
  type CodeUnit = x: int | 0 <= x < 0x10000

  type Text = seq<CodeUnit>

  /** Half of a character outside the Basic Multilingual Plane. */
  predicate Surrogate(u: CodeUnit) { 0xD800 <= u < 0xE000 }

  function Min(a: int, b: int): int { if a < b then a else b }

  function Max(a: int, b: int): int { if a < b then b else a }

  /** How many values k bytes can hold. */
  function Pow256(k: nat): (r: nat)
    ensures r > 0
  {
    if k == 0 then 1 else 256 * Pow256(k - 1)
  }

  /** The concatenation of a list of sequences. */
  function Flatten<T>(parts: seq<seq<T>>): seq<T> {
    if parts == [] then [] else Flatten(parts[..|parts| - 1]) + parts[|parts| - 1]
  }

  lemma FlattenNone<T>()
    ensures Flatten<T>([]) == []
  {
  }

  lemma FlattenSnoc<T>(parts: seq<seq<T>>, last: seq<T>)
    ensures Flatten(parts + [last]) == Flatten(parts) + last
  {
    assert (parts + [last])[..|parts|] == parts;
  }

  lemma {:induction false} FlattenCons<T>(first: seq<T>, parts: seq<seq<T>>)
    ensures Flatten([first] + parts) == first + Flatten(parts)
  {
    if parts == [] {
      assert ([first] + parts)[..0] == [];
    } else {
      var n := |parts| - 1;
      assert ([first] + parts)[..n + 1] == [first] + parts[..n];
      FlattenCons(first, parts[..n]);
    }
  }
}
