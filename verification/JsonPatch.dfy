/** _patch.py: JSON patches with an extra append operation, on documents of objects and arrays. */
module JsonPatch {
  import opened Common

  datatype Json = Object(members: map<string, Json>) | Array(items: seq<Json>) | Str(text: string) | Atom(n: int)

  /** The reference tokens of a JSON pointer, unescaped. */
  type Path = seq<string>

  datatype Op =
    | Add(path: Path, value: Json)
    | Replace(path: Path, value: Json)
    | Remove(path: Path)
    | Test(path: Path, value: Json)
    | Append(path: Path, value: Json)

  // ---------- Pointers ----------

  predicate Digits(token: string) { forall i :: 0 <= i < |token| ==> '0' <= token[i] <= '9' }

  function Decimal(token: string): nat
    requires Digits(token)
  {
    if token == "" then 0
    else Decimal(token[..|token| - 1]) * 10 + (token[|token| - 1] - '0') as nat
  }

  /** An array index of section 4 of RFC 6901: decimal, without leading zeros. */
  function ArrayIndex(token: string): Option<nat> {
    if token == "0" then Some(0)
    else if token != "" && token[0] != '0' && Digits(token) then Some(Decimal(token))
    else None
  }

  /** What one token leads to: a member of an object or an element of an array. */
  function Child(doc: Json, token: string): Option<Json> {
    match doc
    case Object(members) => if token in members then Some(members[token]) else None
    case Array(items) =>
      var i := ArrayIndex(token);
      if i.Some? && i.value < |items| then Some(items[i.value]) else None
    case _ => None
  }

  /** resolve_pointer */
  function Resolve(doc: Json, path: Path): Option<Json> {
    if path == [] then Some(doc)
    else
      match Child(doc, path[0])
      case None => None
      case Some(child) => Resolve(child, path[1..])
  }

  // ---------- Updates ----------

  datatype Edit = Insert(value: Json) | Set(value: Json) | Delete

  /** The place in an array that a token stands for in an insertion; "-" is the end. */
  function Slot(items: seq<Json>, token: string): Option<nat> {
    if token == "-" then Some(|items|) else ArrayIndex(token)
  }

  /** An edit of the member or element a token names (section 4 of RFC 6902). */
  function EditAt(doc: Json, token: string, edit: Edit): Option<Json> {
    match doc
    case Object(members) =>
      if edit.Insert? then Some(Object(members[token := edit.value]))
      else if token !in members then None
      else if edit.Set? then Some(Object(members[token := edit.value]))
      else Some(Object(members - {token}))
    case Array(items) =>
      var i := if edit.Insert? then Slot(items, token) else ArrayIndex(token);
      if i.None? || i.value > |items| then None
      else if edit.Insert? then Some(Array(items[..i.value] + [edit.value] + items[i.value..]))
      else if i.value == |items| then None
      else if edit.Set? then Some(Array(items[i.value := edit.value]))
      else Some(Array(items[..i.value] + items[i.value + 1..]))
    case _ => None
  }

  /** doc with another value in the place of a child. */
  function WithChild(doc: Json, token: string, child: Json): Json
    requires Child(doc, token).Some?
  {
    if doc.Object? then Object(doc.members[token := child])
    else Array(doc.items[ArrayIndex(token).value := child])
  }

  function Update(doc: Json, path: Path, edit: Edit): Option<Json>
    requires path != []
  {
    if |path| == 1 then EditAt(doc, path[0], edit)
    else
      match Child(doc, path[0])
      case None => None
      case Some(child) =>
        match Update(child, path[1..], edit)
        case None => None
        case Some(updated) => Some(WithChild(doc, path[0], updated))
  }

  /** An operation of RFC 6902, on the document as a whole when the path is empty. None is an
      exception. */
  function ApplyStandard(doc: Json, op: Op): Option<Json>
    requires !op.Append?
  {
    match op
    case Add(path, value) => if path == [] then Some(value) else Update(doc, path, Insert(value))
    case Replace(path, value) => if path == [] then Some(value) else Update(doc, path, Set(value))
    case Remove(path) => if path == [] then None else Update(doc, path, Delete)
    case Test(path, value) => if Resolve(doc, path) == Some(value) then Some(doc) else None
  }

  /** _standard_operation: append becomes a replace by the longer string. */
  function StandardOperation(doc: Json, op: Op): Option<Op>
    ensures StandardOperation(doc, op).Some? ==> !StandardOperation(doc, op).value.Append?
  {
    match op
    case Append(path, value) =>
      var current := Resolve(doc, path);
      if current.Some? && current.value.Str? && value.Str? then
        Some(Replace(path, Str(current.value.text + value.text)))
      else None
    case _ => Some(op)
  }

  function ApplyOne(doc: Json, op: Op): Option<Json> {
    var standard := StandardOperation(doc, op);
    if standard.None? then None else ApplyStandard(doc, standard.value)
  }

  function ApplyAll(doc: Json, ops: seq<Op>): Option<Json> {
    if ops == [] then Some(doc)
    else
      match ApplyAll(doc, ops[..|ops| - 1])
      case None => None
      case Some(d) => ApplyOne(d, ops[|ops| - 1])
  }

  method ApplyJsonPatch(value: Json, operations: seq<Op>) returns (r: Option<Json>)
    ensures r == ApplyAll(value, operations)
  {
    var document := value;
    var i := 0;
    while i < |operations|
      invariant i <= |operations| && ApplyAll(value, operations[..i]) == Some(document)
    {
      assert operations[..i + 1][..i] == operations[..i];
      var standard := StandardOperation(document, operations[i]);
      var applied := if standard.None? then None else ApplyStandard(document, standard.value);
      assert applied == ApplyAll(value, operations[..i + 1]);
      if applied.None? {
        Raises(value, operations, i + 1);
        return None;
      }
      document := applied.value;
      i := i + 1;
    }
    assert operations[..i] == operations;
    return Some(document);
  }

  lemma {:induction false} Raises(doc: Json, ops: seq<Op>, i: nat)
    requires i <= |ops| && ApplyAll(doc, ops[..i]).None?
    ensures ApplyAll(doc, ops).None?
    decreases |ops|
  {
    if i == |ops| {
      assert ops[..i] == ops;
    } else {
      assert ops[..|ops| - 1][..i] == ops[..i];
      Raises(doc, ops[..|ops| - 1], i);
    }
  }

  // ---------- Rewriting ----------

  /** make_json_patch on one operation of the list the library computed. */
  function Rewrite(source: Json, op: Op, appendPaths: set<Path>): Option<Op> {
    if !op.Replace? || op.path !in appendPaths then Some(op)
    else
      var previous := Resolve(source, op.path);
      if previous.None? then None
      else if previous.value.Str? && op.value.Str? && previous.value.text <= op.value.text then
        Some(Append(op.path, Str(op.value.text[|previous.value.text|..])))
      else Some(op)
  }

  /** None: resolve_pointer raised. */
  method MakeJsonPatch(source: Json, raw: seq<Op>, appendPaths: set<Path>) returns (r: Option<seq<Op>>)
    ensures r.None? <==> exists i :: 0 <= i < |raw| && Rewrite(source, raw[i], appendPaths).None?
    ensures r.Some? ==> RewriteOf(source, raw, appendPaths, r.value)
    ensures r.None? <==> exists i :: 0 <= i < |raw| && raw[i].Replace? && raw[i].path in appendPaths
                                     && Resolve(source, raw[i].path).None?
    ensures r.Some? ==> |r.value| == |raw|
    ensures r.Some? ==> forall i :: 0 <= i < |raw| ==>
              var op := raw[i];
              var was := Resolve(source, op.path);
              if op.Replace? && op.path in appendPaths && was.Some? && was.value.Str? && op.value.Str?
                 && was.value.text <= op.value.text
              then r.value[i].Append? && r.value[i].path == op.path && r.value[i].value.Str?
                   && was.value.text + r.value[i].value.text == op.value.text
              else r.value[i] == op
  {
    var operations: seq<Op> := [];
    var i := 0;
    while i < |raw|
      invariant i <= |raw| && RewriteOf(source, raw[..i], appendPaths, operations)
    {
      var operation := raw[i];
      if !operation.Replace? || operation.path !in appendPaths {
        operations := operations + [operation];
      } else {
        var previous := Resolve(source, operation.path);
        if previous.None? {
          assert Rewrite(source, raw[i], appendPaths).None?;
          return None;
        }
        var current := operation.value;
        if !(previous.value.Str? && current.Str? && previous.value.text <= current.text) {
          operations := operations + [operation];
        } else {
          operations := operations + [Append(operation.path, Str(current.text[|previous.value.text|..]))];
        }
      }
      i := i + 1;
    }
    assert raw[..i] == raw;
    return Some(operations);
  }

  ghost predicate RewriteOf(source: Json, raw: seq<Op>, appendPaths: set<Path>, rewritten: seq<Op>) {
    && |rewritten| == |raw|
    && forall i :: 0 <= i < |raw| ==> Rewrite(source, raw[i], appendPaths) == Some(rewritten[i])
  }

  // ---------- Reading after an update ----------

  lemma TenTimes(q: nat, r: nat, q2: nat, r2: nat)
    requires r < 10 && r2 < 10 && q * 10 + r == q2 * 10 + r2
    ensures q == q2 && r == r2
  {
  }

  lemma {:induction false} DecimalsDiffer(a: string, b: string)
    requires a != "" && b != "" && a[0] != '0' && b[0] != '0' && Digits(a) && Digits(b)
    requires Decimal(a) == Decimal(b)
    ensures a == b
  {
    var m, n := |a| - 1, |b| - 1;
    TenTimes(Decimal(a[..m]), (a[m] - '0') as nat, Decimal(b[..n]), (b[n] - '0') as nat);
    if m > 0 && n > 0 {
      DecimalsDiffer(a[..m], b[..n]);
    } else if m > 0 {
      Positive(a[..m]);
    } else if n > 0 {
      Positive(b[..n]);
    }
    assert a == a[..m] + [a[m]] && b == b[..n] + [b[n]];
  }

  lemma {:induction false} Positive(a: string)
    requires a != "" && a[0] != '0' && Digits(a)
    ensures Decimal(a) > 0
  {
    if |a| > 1 {
      Positive(a[..|a| - 1]);
    }
  }

  /** Different tokens are different places in an array. */
  lemma IndicesDiffer(a: string, b: string)
    requires ArrayIndex(a).Some? && ArrayIndex(a) == ArrayIndex(b)
    ensures a == b
  {
    if a == "0" && b != "0" {
      Positive(b);
    } else if a != "0" && b == "0" {
      Positive(a);
    } else if a != "0" {
      DecimalsDiffer(a, b);
    }
  }

  /** Neither pointer leads to or past the end of the other. */
  predicate Apart(q: Path, p: Path) { !(q <= p) && !(p <= q) }

  /** Inserting or deleting at q moves the array element that p passes through. */
  predicate Shifts(doc: Json, q: Path, p: Path) {
    && q != [] && p != []
    && if |q| == 1 then
         && doc.Array? && Slot(doc.items, q[0]).Some? && ArrayIndex(p[0]).Some?
         && Slot(doc.items, q[0]).value <= ArrayIndex(p[0]).value
       else
         q[0] == p[0] && Child(doc, q[0]).Some? && Shifts(Child(doc, q[0]).value, q[1..], p[1..])
  }

  lemma ChildAfterEdit(doc: Json, token: string, edit: Edit, other: string)
    requires token != other && EditAt(doc, token, edit).Some?
    requires edit.Set? || !Shifts(doc, [token], [other])
    ensures Child(EditAt(doc, token, edit).value, other) == Child(doc, other)
    ensures EditAt(doc, token, edit).value.Array? == doc.Array?
  {
    if doc.Array? && ArrayIndex(other).Some? {
      var j := ArrayIndex(other).value;
      assert ArrayIndex("-").None?;
      if ArrayIndex(token) == ArrayIndex(other) {
        IndicesDiffer(token, other);
      }
      hide ArrayIndex;
      assert !edit.Set? && Slot(doc.items, token).Some? ==> Slot(doc.items, token).value > j;
      assert edit.Insert? ==> Child(EditAt(doc, token, edit).value, other) == Child(doc, other);
      assert edit.Set? ==> Child(EditAt(doc, token, edit).value, other) == Child(doc, other);
      assert edit.Delete? ==> token != "-";
    }
  }

  lemma ChildAfterChild(doc: Json, token: string, child: Json, other: string)
    requires Child(doc, token).Some?
    ensures Child(WithChild(doc, token, child), other) == if other == token then Some(child) else Child(doc, other)
    ensures WithChild(doc, token, child).Array? == doc.Array?
  {
    hide ArrayIndex;
    if doc.Array? && ArrayIndex(token) == ArrayIndex(other) {
      IndicesDiffer(token, other);
    }
  }

  /** The frame lemma: what a pointer finds, or that it finds nothing, does not change when
      something apart from it does and no element it passes through moves. */
  lemma {:induction false} ResolveAfterUpdate(doc: Json, q: Path, p: Path, edit: Edit)
    requires q != [] && Apart(q, p) && (edit.Set? || !Shifts(doc, q, p))
    requires Update(doc, q, edit).Some?
    ensures Resolve(Update(doc, q, edit).value, p) == Resolve(doc, p)
    decreases |q|
  {
    hide Child, EditAt, WithChild;
    assert q == [q[0]] + q[1..] && p == [p[0]] + p[1..];
    if |q| == 1 {
      ChildAfterEdit(doc, q[0], edit, p[0]);
    } else {
      var child := Child(doc, q[0]).value;
      ChildAfterChild(doc, q[0], Update(child, q[1..], edit).value, p[0]);
      if p[0] == q[0] {
        ResolveAfterUpdate(child, q[1..], p[1..], edit);
      }
    }
  }

  /** Replacing succeeds exactly where there is something, and the value can be read back. */
  lemma {:induction false} ReplaceExisting(doc: Json, p: Path, value: Json)
    requires p != []
    ensures Update(doc, p, Set(value)).Some? <==> Resolve(doc, p).Some?
    ensures Resolve(doc, p).Some? ==> Resolve(Update(doc, p, Set(value)).value, p) == Some(value)
    decreases |p|
  {
    if |p| == 1 {
      assert p[1..] == [];
      assert EditAt(doc, p[0], Set(value)).Some? <==> Child(doc, p[0]).Some?;
      assert Child(doc, p[0]).Some? ==> Child(EditAt(doc, p[0], Set(value)).value, p[0]) == Some(value);
    } else if Child(doc, p[0]).Some? {
      hide Child, WithChild;
      var child := Child(doc, p[0]).value;
      ReplaceExisting(child, p[1..], value);
      if Resolve(doc, p).Some? {
        ChildAfterChild(doc, p[0], Update(child, p[1..], Set(value)).value, p[0]);
      }
    }
  }

  // ---------- What pointers and operations mean ----------

  /** The decimal numeral of a number. */
  function Numeral(n: nat): string {
    var digit := [(n % 10) as char + '0'];
    if n < 10 then digit else Numeral(n / 10) + digit
  }

  lemma {:induction false} NumeralIsRead(n: nat)
    ensures Numeral(n) != "" && Digits(Numeral(n)) && Decimal(Numeral(n)) == n
    ensures n > 0 ==> Numeral(n)[0] != '0'
    ensures n == 0 ==> Numeral(n) == "0"
  {
    var digit := [(n % 10) as char + '0'];
    assert digit[..0] == "" && Decimal("") == 0;
    if n >= 10 {
      NumeralIsRead(n / 10);
      assert Numeral(n)[..|Numeral(n)| - 1] == Numeral(n / 10);
    } else {
      assert Decimal(digit) == n;
    }
  }

  /** A token is an array index exactly when it is the numeral of it. */
  lemma ArrayIndexIs(token: string, n: nat)
    ensures ArrayIndex(token) == Some(n) <==> token == Numeral(n)
  {
    NumeralIsRead(n);
    if n > 0 {
      assert Numeral(n) != "0";
    }
    assert ArrayIndex(Numeral(n)) == Some(n);
    if ArrayIndex(token) == Some(n) {
      IndicesDiffer(token, Numeral(n));
    }
  }

  lemma {:induction false} ResolveStep(doc: Json, q: Path, k: string)
    ensures Resolve(doc, q + [k]) == if Resolve(doc, q).None? then None else Child(Resolve(doc, q).value, k)
    decreases |q|
  {
    hide Child;
    if q == [] {
      assert [k][1..] == [] && q + [k] == [k];
    } else {
      assert (q + [k])[0] == q[0] && (q + [k])[1..] == q[1..] + [k];
      if Child(doc, q[0]).Some? {
        ResolveStep(Child(doc, q[0]).value, q[1..], k);
      }
    }
  }

  /** A pointer with one more token leads to the member of that name, to the element of that index,
      or nowhere. */
  lemma ResolveMeans(doc: Json, q: Path, k: string)
    ensures var at, found := Resolve(doc, q), Resolve(doc, q + [k]);
            && (at.Some? && at.value.Object? ==>
                  found == if k in at.value.members then Some(at.value.members[k]) else None)
            && (at.Some? && at.value.Array? ==>
                  && (forall i: nat :: i < |at.value.items| && k == Numeral(i) ==> found == Some(at.value.items[i]))
                  && ((forall i: nat :: i < |at.value.items| ==> k != Numeral(i)) ==> found.None?))
            && (at.None? || at.value.Str? || at.value.Atom? ==> found.None?)
    ensures Resolve(doc, []) == Some(doc)
  {
    ResolveStep(doc, q, k);
    var at := Resolve(doc, q);
    if at.Some? && at.value.Array? {
      forall i: nat | i < |at.value.items| ensures ArrayIndex(k) == Some(i) <==> k == Numeral(i) {
        ArrayIndexIs(k, i);
      }
    }
  }

  /** An update edits what its path but for the last token leads to, or fails there. */
  lemma {:induction false} UpdateEdits(doc: Json, q: Path, k: string, edit: Edit)
    ensures var at, done := Resolve(doc, q), Update(doc, q + [k], edit);
            && (done.Some? <==> at.Some? && EditAt(at.value, k, edit).Some?)
            && (done.Some? ==> Resolve(done.value, q) == EditAt(at.value, k, edit))
    decreases |q|
  {
    hide Child, EditAt, WithChild;
    var path := q + [k];
    if q == [] {
      assert path == [k];
    } else {
      assert path[0] == q[0] && path[1..] == q[1..] + [k];
      if Child(doc, q[0]).Some? {
        var child := Child(doc, q[0]).value;
        UpdateEdits(child, q[1..], k, edit);
        if Update(child, path[1..], edit).Some? {
          ChildAfterChild(doc, q[0], Update(child, path[1..], edit).value, q[0]);
        }
      }
    }
  }

  /** Adding to an object sets a member, whether it was there or not; no other changes. */
  lemma AddToObject(doc: Json, q: Path, k: string, value: Json)
    requires Resolve(doc, q).Some? && Resolve(doc, q).value.Object?
    ensures var m, done := Resolve(doc, q).value.members, ApplyOne(doc, Add(q + [k], value));
            && done.Some? && Resolve(done.value, q + [k]) == Some(value)
            && Resolve(done.value, q) == Some(Object(m[k := value]))
  {
    UpdateEdits(doc, q, k, Insert(value));
    ResolveMeans(ApplyOne(doc, Add(q + [k], value)).value, q, k);
  }

  /** Adding to an array puts the value at its index, or with "-" at the end, and the elements from
      there on move up by one; there must be an element before the place, or it is the first. */
  lemma AddToArray(doc: Json, q: Path, k: string, value: Json)
    requires Resolve(doc, q).Some? && Resolve(doc, q).value.Array?
    ensures var items, done := Resolve(doc, q).value.items, ApplyOne(doc, Add(q + [k], value));
            && (done.Some? <==> k == "-" || exists i: nat :: i <= |items| && k == Numeral(i))
            && (done.Some? ==> Resolve(done.value, q).Some? && Resolve(done.value, q).value.Array?)
            && forall i: nat :: i <= |items| && (k == Numeral(i) || (k == "-" && i == |items|)) ==>
                 && done.Some?
                 && var now := Resolve(done.value, q).value.items;
                    && |now| == |items| + 1 && now[i] == value
                    && (forall j :: 0 <= j < i ==> now[j] == items[j])
                    && (forall j :: i <= j < |items| ==> now[j + 1] == items[j])
  {
    UpdateEdits(doc, q, k, Insert(value));
    IndexOrEnd(k);
    AllIndices(k);
  }

  lemma AllIndices(k: string)
    ensures forall i: nat :: ArrayIndex(k) == Some(i) <==> k == Numeral(i)
    ensures ArrayIndex(k).Some? ==> k == Numeral(ArrayIndex(k).value)
  {
    forall i: nat ensures ArrayIndex(k) == Some(i) <==> k == Numeral(i) {
      ArrayIndexIs(k, i);
    }
  }

  lemma IndexOrEnd(k: string)
    ensures k == "-" ==> ArrayIndex(k).None? && forall i: nat :: k != Numeral(i)
  {
    if k == "-" {
      forall i: nat ensures k != Numeral(i) {
        NumeralIsRead(i);
      }
    }
  }

  /** Removing takes the member away, and fails exactly when there is none. */
  lemma RemoveFromObject(doc: Json, q: Path, k: string)
    requires Resolve(doc, q).Some? && Resolve(doc, q).value.Object?
    ensures var m, done := Resolve(doc, q).value.members, ApplyOne(doc, Remove(q + [k]));
            && (done.Some? <==> k in m)
            && (done.Some? ==> Resolve(done.value, q + [k]).None? && Resolve(done.value, q) == Some(Object(m - {k})))
  {
    UpdateEdits(doc, q, k, Delete);
    if ApplyOne(doc, Remove(q + [k])).Some? {
      ResolveMeans(ApplyOne(doc, Remove(q + [k])).value, q, k);
    }
  }

  /** Removing from an array takes the element out, and the later ones move down by one. */
  lemma RemoveFromArray(doc: Json, q: Path, k: string)
    requires Resolve(doc, q).Some? && Resolve(doc, q).value.Array?
    ensures var items, done := Resolve(doc, q).value.items, ApplyOne(doc, Remove(q + [k]));
            && (done.Some? <==> exists i: nat :: i < |items| && k == Numeral(i))
            && (done.Some? ==> Resolve(done.value, q).Some? && Resolve(done.value, q).value.Array?)
            && forall i: nat :: i < |items| && k == Numeral(i) ==>
                 && done.Some?
                 && var now := Resolve(done.value, q).value.items;
                    && |now| == |items| - 1
                    && (forall j :: 0 <= j < i ==> now[j] == items[j])
                    && (forall j :: i <= j < |now| ==> now[j] == items[j + 1])
  {
    UpdateEdits(doc, q, k, Delete);
    AllIndices(k);
  }

  /** Nothing can be added to or removed from a value that has no parts, or is not there. */
  lemma NoParts(doc: Json, q: Path, k: string, value: Json)
    requires Resolve(doc, q).None? || Resolve(doc, q).value.Str? || Resolve(doc, q).value.Atom?
    ensures ApplyOne(doc, Add(q + [k], value)).None? && ApplyOne(doc, Remove(q + [k])).None?
  {
    UpdateEdits(doc, q, k, Insert(value));
    UpdateEdits(doc, q, k, Delete);
  }

  /** The operations that need something at their path: a replace puts the value there, a test
      compares it, an append lengthens a string. */
  lemma OthersMean(doc: Json, p: Path, value: Json)
    ensures var at, done := Resolve(doc, p), ApplyOne(doc, Replace(p, value));
            (done.Some? <==> at.Some?) && (done.Some? ==> Resolve(done.value, p) == Some(value))
    ensures ApplyOne(doc, Test(p, value)) == if Resolve(doc, p) == Some(value) then Some(doc) else None
    ensures var at, done := Resolve(doc, p), ApplyOne(doc, Append(p, value));
            && (done.Some? <==> at.Some? && at.value.Str? && value.Str?)
            && (done.Some? ==> Resolve(done.value, p) == Some(Str(at.value.text + value.text)))
    ensures ApplyOne(doc, Add([], value)) == Some(value) && ApplyOne(doc, Remove([])).None?
  {
    var at := Resolve(doc, p);
    if p != [] {
      ReplaceExisting(doc, p, value);
      if at.Some? && at.value.Str? && value.Str? {
        ReplaceExisting(doc, p, Str(at.value.text + value.text));
      }
    }
  }

  /** A string has no members, so nothing below it can be updated. */
  lemma {:induction false} NothingBelowString(doc: Json, p: Path, q: Path, edit: Edit)
    requires Resolve(doc, p).Some? && Resolve(doc, p).value.Str? && p < q
    ensures Update(doc, q, edit).None?
    decreases |p|
  {
    if p != [] {
      assert p[0] == q[0] && p[1..] < q[1..];
      NothingBelowString(Child(doc, p[0]).value, p[1..], q[1..], edit);
    }
  }

  /** One rewritten operation does what the replace does exactly when the document still holds
      the string the suffix was computed from, or nothing at all: then both raise. */
  lemma AppendIsReplace(doc: Json, p: Path, previous: string, current: string)
    requires previous <= current
    ensures ApplyOne(doc, Append(p, Str(current[|previous|..]))) == ApplyOne(doc, Replace(p, Str(current)))
            <==> Resolve(doc, p) == Some(Str(previous)) || Resolve(doc, p).None?
  {
    var suffix := current[|previous|..];
    assert previous + suffix == current;
    if p != [] {
      ReplaceExisting(doc, p, Str(current));
    }
    if Resolve(doc, p).Some? && Resolve(doc, p).value.Str? {
      var now := Resolve(doc, p).value.text;
      if p != [] {
        ReplaceExisting(doc, p, Str(now + suffix));
      }
      if now + suffix == current {
        assert now == (now + suffix)[..|now|] && |now| == |previous|;
        assert now == current[..|previous|] == previous;
      }
    }
  }

  // ---------- Whole lists ----------

  /** The document before operation i still holds, at the path of that operation, what the
      source held there; or there is no such document, or nothing there. */
  ghost predicate StillThere(source: Json, raw: seq<Op>, i: nat)
    requires i < |raw|
  {
    var before := ApplyAll(source, raw[..i]);
    before.None? || Resolve(before.value, raw[i].path).None?
    || Resolve(before.value, raw[i].path) == Resolve(source, raw[i].path)
  }

  /** The two lists agree after every operation. */
  ghost predicate Agree(source: Json, raw: seq<Op>, rewritten: seq<Op>)
    requires |raw| == |rewritten|
  {
    forall k :: 0 <= k <= |raw| ==> ApplyAll(source, rewritten[..k]) == ApplyAll(source, raw[..k])
  }

  lemma ApplyOneMore(doc: Json, ops: seq<Op>, i: nat)
    requires i < |ops|
    ensures var before := ApplyAll(doc, ops[..i]);
            ApplyAll(doc, ops[..i + 1]) == if before.None? then None else ApplyOne(before.value, ops[i])
  {
    hide ApplyOne;
    assert ops[..i + 1][..i] == ops[..i];
  }

  /** One step of both lists from the same document. */
  lemma StepsAgree(source: Json, raw: seq<Op>, appendPaths: set<Path>, rewritten: seq<Op>, i: nat)
    requires RewriteOf(source, raw, appendPaths, rewritten) && i < |raw|
    requires ApplyAll(source, rewritten[..i]) == ApplyAll(source, raw[..i])
    ensures ApplyAll(source, rewritten[..i + 1]) == ApplyAll(source, raw[..i + 1])
            <==> (rewritten[i] != raw[i] ==> StillThere(source, raw, i))
  {
    hide ApplyOne, Resolve, ApplyAll;
    ApplyOneMore(source, raw, i);
    ApplyOneMore(source, rewritten, i);
    assert Rewrite(source, raw[i], appendPaths) == Some(rewritten[i]);
    var before := ApplyAll(source, raw[..i]);
    if rewritten[i] != raw[i] && before.Some? {
      AppendIsReplace(before.value, raw[i].path, Resolve(source, raw[i].path).value.text, raw[i].value.text);
    }
  }

  /** Exactly when rewriting is right: the two lists agree after every operation if and only if
      each rewritten path still holds the source's string when its turn comes, or nothing. */
  lemma RewriteIsExact(source: Json, raw: seq<Op>, appendPaths: set<Path>, rewritten: seq<Op>)
    requires RewriteOf(source, raw, appendPaths, rewritten)
    ensures Agree(source, raw, rewritten)
            <==> forall i :: 0 <= i < |raw| && rewritten[i] != raw[i] ==> StillThere(source, raw, i)
  {
    hide ApplyAll, StillThere;
    if Agree(source, raw, rewritten) {
      forall i | 0 <= i < |raw| && rewritten[i] != raw[i] ensures StillThere(source, raw, i) {
        assert ApplyAll(source, rewritten[..i + 1]) == ApplyAll(source, raw[..i + 1]);
        StepsAgree(source, raw, appendPaths, rewritten, i);
      }
    }
    if forall i :: 0 <= i < |raw| && rewritten[i] != raw[i] ==> StillThere(source, raw, i) {
      var k := 0;
      assert raw[..0] == rewritten[..0];
      while k < |raw|
        invariant k <= |raw|
        invariant forall j :: 0 <= j <= k ==> ApplyAll(source, rewritten[..j]) == ApplyAll(source, raw[..j])
      {
        StepsAgree(source, raw, appendPaths, rewritten, k);
        k := k + 1;
      }
    }
  }

  /** An operation that ends at p or above it, or moves an element p passes through. */
  predicate Touches(source: Json, op: Op, p: Path) {
    && !op.Test?
    && (op.path <= p || ((op.Add? || op.Remove?) && Shifts(source, op.path, p)))
  }

  /** Both documents have something at p, the same thing, reached through objects and arrays at
      the same places. */
  predicate SameAlong(a: Json, b: Json, p: Path) {
    if p == [] then a == b
    else
      && Child(a, p[0]).Some? && Child(b, p[0]).Some? && a.Array? == b.Array?
      && SameAlong(Child(a, p[0]).value, Child(b, p[0]).value, p[1..])
  }

  lemma {:induction false} SameAlongResolves(a: Json, b: Json, p: Path)
    ensures SameAlong(a, b, p) ==> Resolve(a, p).Some? && Resolve(b, p) == Resolve(a, p)
    ensures Resolve(a, p).Some? ==> SameAlong(a, a, p)
    decreases |p|
  {
    if p != [] && Child(a, p[0]).Some? {
      SameAlongResolves(Child(a, p[0]).value, Child(a, p[0]).value, p[1..]);
      if Child(b, p[0]).Some? {
        SameAlongResolves(Child(a, p[0]).value, Child(b, p[0]).value, p[1..]);
      }
    }
  }

  /** Updates that do not touch p, as judged on the first document, keep the way to it. */
  lemma {:induction false} UpdateKeepsAlong(a: Json, b: Json, q: Path, p: Path, edit: Edit)
    requires q != [] && Apart(q, p) && (edit.Set? || !Shifts(a, q, p))
    requires SameAlong(a, b, p) && Update(b, q, edit).Some?
    ensures SameAlong(a, Update(b, q, edit).value, p)
    decreases |q|
  {
    assert q == [q[0]] + q[1..] && p == [p[0]] + p[1..];
    if |q| == 1 {
      assert edit.Set? || !Shifts(b, [q[0]], [p[0]]);
      hide Child, EditAt, Shifts;
      ChildAfterEdit(b, q[0], edit, p[0]);
    } else {
      hide Child, EditAt, WithChild;
      var child := Child(b, q[0]).value;
      ChildAfterChild(b, q[0], Update(child, q[1..], edit).value, p[0]);
      if p[0] == q[0] {
        UpdateKeepsAlong(Child(a, q[0]).value, child, q[1..], p[1..], edit);
      }
    }
  }

  lemma OneStays(source: Json, doc: Json, op: Op, p: Path)
    requires Resolve(source, p).Some? && Resolve(source, p).value.Str?
    requires SameAlong(source, doc, p) && !Touches(source, op, p)
    requires ApplyOne(doc, op).Some?
    ensures SameAlong(source, ApplyOne(doc, op).value, p)
  {
    hide SameAlong, Shifts, Update, Resolve;
    SameAlongResolves(source, doc, p);
    var standard := StandardOperation(doc, op).value;
    if !standard.Test? {
      var q := standard.path;
      var edit := if standard.Add? then Insert(standard.value)
                  else if standard.Remove? then Delete else Set(standard.value);
      assert ApplyOne(doc, op) == Update(doc, q, edit);
      if p <= q {
        NothingBelowString(doc, p, q, edit);
      } else {
        UpdateKeepsAlong(source, doc, q, p, edit);
      }
    }
  }

  /** Operations that do not touch p leave the string found there, or raise. */
  lemma {:induction false} StringStays(source: Json, ops: seq<Op>, p: Path)
    requires Resolve(source, p).Some? && Resolve(source, p).value.Str?
    requires forall i :: 0 <= i < |ops| ==> !Touches(source, ops[i], p)
    requires ApplyAll(source, ops).Some?
    ensures SameAlong(source, ApplyAll(source, ops).value, p)
  {
    hide SameAlong, Touches, Resolve, ApplyOne;
    if ops == [] {
      SameAlongResolves(source, source, p);
    } else {
      var n := |ops| - 1;
      StringStays(source, ops[..n], p);
      OneStays(source, ApplyAll(source, ops[..n]).value, ops[n], p);
    }
  }

  /** Main result: when no earlier operation touches a rewritten path, the rewritten list and the
      original one give the same document, or both raise, after every operation. */
  lemma RewritePreservesMeaning(source: Json, raw: seq<Op>, appendPaths: set<Path>, rewritten: seq<Op>)
    requires RewriteOf(source, raw, appendPaths, rewritten)
    requires forall i, j :: 0 <= j < i < |raw| && rewritten[i] != raw[i] ==> !Touches(source, raw[j], raw[i].path)
    ensures Agree(source, raw, rewritten)
    ensures ApplyAll(source, rewritten) == ApplyAll(source, raw)
  {
    hide Touches, SameAlong, Resolve, ApplyAll;
    forall i | 0 <= i < |raw| && rewritten[i] != raw[i] ensures StillThere(source, raw, i) {
      var p := raw[i].path;
      var before := ApplyAll(source, raw[..i]);
      assert Rewrite(source, raw[i], appendPaths) == Some(rewritten[i]);
      forall j | 0 <= j < i ensures !Touches(source, raw[..i][j], p) {
        assert !Touches(source, raw[j], raw[i].path);
      }
      if before.Some? {
        StringStays(source, raw[..i], p);
        SameAlongResolves(source, before.value, p);
      }
    }
    RewriteIsExact(source, raw, appendPaths, rewritten);
    assert raw[..|raw|] == raw && rewritten[..|raw|] == rewritten;
  }

  // ---------- The program's own paths ----------

  const CONTENT_TEXT: Path := ["content", "0", "text"]

  lemma OneOperation(doc: Json, op: Op)
    ensures ApplyAll(doc, [op]) == ApplyOne(doc, op)
  {
    assert [op][..0] == [];
    assert ApplyAll(doc, [op][..0]) == Some(doc);
  }

  /** Streamed text of a message: the first element of the content array gets longer. */
  lemma ContentIsStreamed(entry: map<string, Json>, blocks: seq<Json>, block: map<string, Json>,
                          previous: string, current: string)
    requires "content" in entry && entry["content"] == Array(blocks) && blocks != [] && blocks[0] == Object(block)
    requires "text" in block && block["text"] == Str(previous) && previous <= current
    ensures var raw, rewritten := Replace(CONTENT_TEXT, Str(current)), Append(CONTENT_TEXT, Str(current[|previous|..]));
            var after := Object(entry["content" := Array(blocks[0 := Object(block["text" := Str(current)])])]);
            && Rewrite(Object(entry), raw, {CONTENT_TEXT}) == Some(rewritten)
            && ApplyAll(Object(entry), [rewritten]) == ApplyAll(Object(entry), [raw]) == Some(after)
  {
    var source, p := Object(entry), CONTENT_TEXT;
    assert p[1..] == ["0", "text"] && p[1..][1..] == ["text"] && ["text"][1..] == [];
    assert Child(source, "content") == Some(Array(blocks));
    assert Child(Array(blocks), "0") == Some(Object(block));
    assert Resolve(Object(block), ["text"]) == Some(Str(previous));
    assert Resolve(Array(blocks), ["0", "text"]) == Some(Str(previous));
    assert Resolve(source, p) == Some(Str(previous));
    var after := Object(block["text" := Str(current)]);
    assert Update(Object(block), ["text"], Set(Str(current))) == Some(after);
    assert Update(Array(blocks), ["0", "text"], Set(Str(current))) == Some(Array(blocks[0 := after]));
    AppendIsReplace(source, p, previous, current);
    OneOperation(source, Replace(p, Str(current)));
    OneOperation(source, Append(p, Str(current[|previous|..])));
  }

  // ---------- The condition matters ----------

  lemma TwoOperations(doc: Json, first: Op, second: Op)
    ensures var before := ApplyOne(doc, first);
            ApplyAll(doc, [first, second]) == if before.None? then None else ApplyOne(before.value, second)
  {
    OneOperation(doc, first);
    assert [first, second][..1] == [first];
  }

  /** A replace of the same path in front breaks the rewriting. */
  lemma TouchedPathDiffers()
    ensures var source := Object(map["t" := Str("a")]);
            var raw := [Replace(["t"], Str("b")), Replace(["t"], Str("ac"))];
            var rewritten := [Replace(["t"], Str("b")), Append(["t"], Str("c"))];
            && Rewrite(source, raw[1], {["t"]}) == Some(rewritten[1])
            && ApplyAll(source, rewritten) != ApplyAll(source, raw)
  {
    var source, later := Object(map["t" := Str("a")]), Object(map["t" := Str("b")]);
    var p: Path := ["t"];
    assert p[1..] == [];
    assert Resolve(source, p) == Some(Str("a")) && Resolve(later, p) == Some(Str("b"));
    assert "ac"[1..] == "c" && "a" <= "ac";
    assert source.members["t" := Str("b")] == later.members;
    assert ApplyOne(source, Replace(p, Str("b"))) == Some(later);
    TwoOperations(source, Replace(p, Str("b")), Append(p, Str("c")));
    TwoOperations(source, Replace(p, Str("b")), Replace(p, Str("ac")));
    AppendIsReplace(later, p, "a", "ac");
  }

  /** So does a removal in front of an array element on the way, which moves that element. */
  lemma ShiftedElementDiffers()
    ensures var source := Object(map["items" := Array([Str("x"), Str("a"), Str("b")])]);
            var raw := [Remove(["items", "0"]), Replace(["items", "1"], Str("ac"))];
            var rewritten := [Remove(["items", "0"]), Append(["items", "1"], Str("c"))];
            && Rewrite(source, raw[1], {["items", "1"]}) == Some(rewritten[1])
            && !(raw[0].path <= raw[1].path)
            && ApplyAll(source, rewritten) != ApplyAll(source, raw)
  {
    var three, two := Array([Str("x"), Str("a"), Str("b")]), Array([Str("a"), Str("b")]);
    var source, later := Object(map["items" := three]), Object(map["items" := two]);
    var q: Path, p: Path := ["items", "0"], ["items", "1"];
    assert q[1..] == ["0"] && p[1..] == ["1"] && p[1..][1..] == [];
    assert "1"[..0] == "" && ArrayIndex("1") == Some(1);
    assert Child(three, "1") == Some(Str("a")) && Child(two, "1") == Some(Str("b"));
    assert Resolve(three, ["1"]) == Some(Str("a")) && Resolve(two, ["1"]) == Some(Str("b"));
    assert Resolve(source, p) == Some(Str("a")) && Resolve(later, p) == Some(Str("b"));
    assert "ac"[1..] == "c" && "a" <= "ac";
    assert three.items[..0] + three.items[1..] == two.items;
    assert Update(three, ["0"], Delete) == Some(two);
    assert source.members["items" := two] == later.members;
    assert ApplyOne(source, Remove(q)) == Some(later);
    TwoOperations(source, Remove(q), Append(p, Str("c")));
    TwoOperations(source, Remove(q), Replace(p, Str("ac")));
    AppendIsReplace(later, p, "a", "ac");
  }
}
