/** GOAR's per-turn checkpoint ledger (goar_vibe_core.py): what a turn did to the workspace is
    recorded from captures taken before and after each write, and a review can revert it. */
module Checkpoint {
  import opened Common

  const MAX_SNAPSHOT_BYTES := 512 * 1024
  const KEPT_EVENTS: nat := 250
  const KEPT_REVIEWS: nat := 500

  /** The workspace: the files present, by path. */
  type Files = map<string, Bytes>

  /** What write_text leaves of bytes that were decoded with errors="replace". */
  type Reencode = Bytes -> Bytes

  /** _file_state of a present file. The digest is taken to be injective, so it is the contents. */
  datatype Snapshot = Snapshot(digest: Bytes, text: Option<Bytes>)

  datatype Row = Row(before: Option<Snapshot>, after: Option<Snapshot>)

  /** _open["changes"]: a dictionary that remembers insertion order. */
  datatype Turn = Turn(order: seq<string>, rows: map<string, Row>)

  datatype Change = Change(path: string, before: Option<Snapshot>, after: Option<Snapshot>)

  datatype Event = Event(id: nat, turnId: string, changes: seq<Change>)

  const EMPTY := Turn([], map[])

  function FileState(re: Reencode, files: Files, path: string): Option<Snapshot> {
    if path !in files then None
    else Some(Snapshot(files[path], if |files[path]| <= MAX_SNAPSHOT_BYTES then Some(re(files[path])) else None))
  }

  // ---------- The steps of a turn ----------

  datatype Op = CaptureBefore(path: string) | CaptureAfter(path: string) | Write(path: string, contents: Option<Bytes>)

  datatype Work = Work(files: Files, turn: Turn)

  function SetDefault(t: Turn, path: string, row: Row): Turn {
    if path in t.rows then t else Turn(t.order + [path], t.rows[path := row])
  }

  function Step(re: Reencode, w: Work, op: Op): Work {
    match op
    case CaptureBefore(p) => w.(turn := SetDefault(w.turn, p, Row(FileState(re, w.files, p), None)))
    case CaptureAfter(p) =>
      var t := SetDefault(w.turn, p, Row(None, None));
      w.(turn := t.(rows := t.rows[p := t.rows[p].(after := FileState(re, w.files, p))]))
    case Write(p, contents) =>
      w.(files := if contents.Some? then w.files[p := contents.value] else w.files - {p})
  }

  function Play(re: Reencode, files: Files, ops: seq<Op>): Work {
    if ops == [] then Work(files, EMPTY) else Step(re, Play(re, files, ops[..|ops| - 1]), ops[|ops| - 1])
  }

  /** seal keeps the rows whose two states differ, in order. */
  function Changes(order: seq<string>, rows: map<string, Row>): seq<Change>
    requires forall p <- order :: p in rows
  {
    if order == [] then []
    else
      var p := order[|order| - 1];
      Changes(order[..|order| - 1], rows)
      + if rows[p].before != rows[p].after then [Change(p, rows[p].before, rows[p].after)] else []
  }

  // ---------- Reverting ----------

  datatype Reverted = Reverted(files: Files, ok: bool)

  predicate Restorable(c: Change) { c.before.None? || c.before.value.text.Some? }

  function Restore(c: Change, files: Files): Files
    requires Restorable(c)
  {
    if c.before.None? then files - {c.path} else files[c.path := c.before.value.text.value]
  }

  /** Last change first; a change without a text snapshot stops the revert where it is. */
  function Revert(changes: seq<Change>, files: Files): Reverted {
    if changes == [] then Reverted(files, true)
    else
      var c := changes[|changes| - 1];
      if !Restorable(c) then Reverted(files, false) else Revert(changes[..|changes| - 1], Restore(c, files))
  }

  predicate Distinct<T(==)>(s: seq<T>) { forall i, j :: 0 <= i < j < |s| ==> s[i] != s[j] }

  predicate DistinctPaths(changes: seq<Change>) {
    forall i, j :: 0 <= i < j < |changes| ==> changes[i].path != changes[j].path
  }

  function Lookup(files: Files, p: string): Option<Bytes> { if p in files then Some(files[p]) else None }

  /** The revert raises exactly when some change has no bounded text snapshot. */
  lemma {:induction false} RevertRaises(changes: seq<Change>, files: Files)
    ensures Revert(changes, files).ok <==> forall k :: 0 <= k < |changes| ==> Restorable(changes[k])
  {
    if changes != [] {
      var n := |changes| - 1;
      if Restorable(changes[n]) {
        RevertRaises(changes[..n], Restore(changes[n], files));
        assert forall k :: 0 <= k < n ==> changes[..n][k] == changes[k];
      }
    }
  }

  /** A path no change names is left alone. */
  lemma {:induction false} RevertElsewhere(changes: seq<Change>, files: Files, p: string)
    requires forall k :: 0 <= k < |changes| ==> changes[k].path != p
    ensures Lookup(Revert(changes, files).files, p) == Lookup(files, p)
  {
    if changes != [] {
      var n := |changes| - 1;
      if Restorable(changes[n]) {
        RevertElsewhere(changes[..n], Restore(changes[n], files), p);
      }
    }
  }

  /** A path some change names gets the text recorded before the turn. */
  lemma {:induction false} RevertThere(changes: seq<Change>, files: Files, i: nat)
    requires i < |changes| && DistinctPaths(changes)
    requires Revert(changes, files).ok
    ensures var c := changes[i];
            Lookup(Revert(changes, files).files, c.path) == if c.before.None? then None else c.before.value.text
  {
    var n := |changes| - 1;
    RevertRaises(changes, files);
    if i == n {
      RevertElsewhere(changes[..n], Restore(changes[n], files), changes[n].path);
    } else {
      RevertThere(changes[..n], Restore(changes[n], files), i);
    }
  }

  // ---------- One turn ----------

  /** Every write lies between a capture_before and a capture_after of its path. */
  ghost predicate Bracketed(ops: seq<Op>) {
    && (forall i :: 0 <= i < |ops| && !ops[i].CaptureBefore? ==>
          exists j :: 0 <= j < i && ops[j] == CaptureBefore(ops[i].path))
    && (forall i :: 0 <= i < |ops| && ops[i].Write? ==>
          exists k :: i < k < |ops| && ops[k] == CaptureAfter(ops[i].path))
  }

  /** Every write so far was announced. */
  ghost predicate Announced(ops: seq<Op>) {
    forall i :: 0 <= i < |ops| && !ops[i].CaptureBefore? ==>
      exists j :: 0 <= j < i && ops[j] == CaptureBefore(ops[i].path)
  }

  /** Paths written since their last capture_after. */
  function Dirty(ops: seq<Op>): set<string> {
    if ops == [] then {}
    else
      var d := Dirty(ops[..|ops| - 1]);
      match ops[|ops| - 1]
      case CaptureBefore(_) => d
      case CaptureAfter(p) => d - {p}
      case Write(p, _) => d + {p}
  }

  lemma {:induction false} DirtyHasLateWrite(ops: seq<Op>, p: string)
    requires p in Dirty(ops)
    ensures exists i :: 0 <= i < |ops| && ops[i].Write? && ops[i].path == p
                        && forall k :: i < k < |ops| ==> ops[k] != CaptureAfter(p)
  {
    var n := |ops| - 1;
    if ops[n].Write? && ops[n].path == p {
      assert ops[n].Write?;
    } else {
      DirtyHasLateWrite(ops[..n], p);
      var i :| 0 <= i < n && ops[..n][i].Write? && ops[..n][i].path == p
               && forall k :: i < k < n ==> ops[..n][k] != CaptureAfter(p);
      assert ops[i] == ops[..n][i];
      assert forall k :: i < k < n ==> ops[k] == ops[..n][k];
    }
  }

  /** What the captures know of path p after the steps ops on files. */
  ghost predicate Knows(re: Reencode, files: Files, ops: seq<Op>, p: string) {
    var w := Play(re, files, ops);
    && (p in w.turn.rows ==> w.turn.rows[p].before == FileState(re, files, p))
    && (p !in w.turn.rows ==> Lookup(w.files, p) == Lookup(files, p))
    && (p !in w.turn.rows ==> CaptureBefore(p) !in ops)
    && (p in w.turn.rows && p !in Dirty(ops) ==>
          w.turn.rows[p].after == FileState(re, w.files, p) || Lookup(w.files, p) == Lookup(files, p))
  }

  lemma AnnouncedPrefix(ops: seq<Op>, n: nat)
    requires Announced(ops) && n <= |ops|
    ensures Announced(ops[..n])
  {
    forall i | 0 <= i < n && !ops[..n][i].CaptureBefore?
      ensures exists j :: 0 <= j < i && ops[..n][j] == CaptureBefore(ops[..n][i].path)
    {
      assert !ops[i].CaptureBefore?;
      var j :| 0 <= j < i && ops[j] == CaptureBefore(ops[i].path);
      assert ops[..n][j] == ops[j];
    }
  }

  lemma KnowsStep(re: Reencode, files: Files, before: seq<Op>, op: Op, p: string)
    requires Knows(re, files, before, p)
    requires op.CaptureBefore? || op.path != p || CaptureBefore(p) in before
    ensures Knows(re, files, before + [op], p)
  {
    hide Recoverable, Bracketed;
    var ops := before + [op];
    assert ops[..|before|] == before && ops[|before|] == op;
    var w := Play(re, files, before);
    assert Play(re, files, ops) == Step(re, w, op);
    if op.path != p {
      assert CaptureBefore(p) in ops ==> CaptureBefore(p) in before;
    }
  }

  lemma {:induction false} CapturesKnow(re: Reencode, files: Files, ops: seq<Op>, p: string)
    requires Announced(ops)
    ensures Knows(re, files, ops, p)
  {
    if ops != [] {
      var n := |ops| - 1;
      AnnouncedPrefix(ops, n);
      CapturesKnow(re, files, ops[..n], p);
      assert ops == ops[..n] + [ops[n]];
      if !ops[n].CaptureBefore? && ops[n].path == p {
        var j :| 0 <= j < n && ops[j] == CaptureBefore(p);
        assert ops[..n][j] == ops[j];
      }
      hide Knows, Announced;
      KnowsStep(re, files, ops[..n], ops[n], p);
    }
  }

  lemma {:induction false} RowsOrdered(re: Reencode, files: Files, ops: seq<Op>)
    ensures var t := Play(re, files, ops).turn;
            Distinct(t.order) && forall p :: p in t.rows <==> p in t.order
  {
    if ops != [] {
      RowsOrdered(re, files, ops[..|ops| - 1]);
    }
  }

  predicate ChangeOf(c: Change, order: seq<string>, rows: map<string, Row>) {
    && c.path in order && c.path in rows
    && c == Change(c.path, rows[c.path].before, rows[c.path].after) && c.before != c.after
  }

  lemma {:induction false} ChangesAre(order: seq<string>, rows: map<string, Row>)
    requires Distinct(order) && forall p <- order :: p in rows
    ensures var cs := Changes(order, rows);
            DistinctPaths(cs) && forall k :: 0 <= k < |cs| ==> ChangeOf(cs[k], order, rows)
  {
    if order != [] {
      var n := |order| - 1;
      ChangesAre(order[..n], rows);
      var cs, before := Changes(order, rows), Changes(order[..n], rows);
      forall k | 0 <= k < |cs| ensures ChangeOf(cs[k], order, rows) {
        if k < |before| {
          assert cs[k] == before[k] && ChangeOf(before[k], order[..n], rows);
        }
      }
      forall k | 0 <= k < |before| ensures before[k].path != order[n] {
        assert ChangeOf(before[k], order[..n], rows);
        var j :| 0 <= j < n && order[..n][j] == before[k].path;
        assert order[j] != order[n];
      }
    }
  }

  lemma {:induction false} ChangesCover(order: seq<string>, rows: map<string, Row>, p: string) returns (k: nat)
    requires forall q <- order :: q in rows
    requires p in order && rows[p].before != rows[p].after
    ensures k < |Changes(order, rows)| && Changes(order, rows)[k].path == p
  {
    var n := |order| - 1;
    if p == order[n] {
      k := |Changes(order[..n], rows)|;
    } else {
      assert p in order[..n];
      k := ChangesCover(order[..n], rows, p);
    }
  }

  /** The contents of p can be brought back: bounded, and unchanged by decoding and encoding. */
  predicate Recoverable(re: Reencode, files: Files, p: string) {
    p in files ==> |files[p]| <= MAX_SNAPSHOT_BYTES && re(files[p]) == files[p]
  }

  /** Main result for one turn: reverting a bracketed turn gives back the files it started from
      exactly when each file the turn recorded as changed was recoverable beforehand. */
  lemma TurnIsUndone(re: Reencode, files: Files, ops: seq<Op>)
    requires Bracketed(ops)
    ensures var w := Play(re, files, ops);
            && (forall p <- w.turn.order :: p in w.turn.rows)
            && var cs := Changes(w.turn.order, w.turn.rows);
               (Revert(cs, w.files) == Reverted(files, true)
                <==> forall k :: 0 <= k < |cs| ==> Recoverable(re, files, cs[k].path))
  {
    var w := Play(re, files, ops);
    RowsOrdered(re, files, ops);
    ChangesAre(w.turn.order, w.turn.rows);
    var cs := Changes(w.turn.order, w.turn.rows);
    RevertRaises(cs, w.files);
    forall k | 0 <= k < |cs|
      ensures cs[k].before == FileState(re, files, cs[k].path)
    {
      assert ChangeOf(cs[k], w.turn.order, w.turn.rows);
      CapturesKnow(re, files, ops, cs[k].path);
    }
    var r := Revert(cs, w.files);
    if r.ok {
      if forall k :: 0 <= k < |cs| ==> Recoverable(re, files, cs[k].path) {
        forall p ensures Lookup(r.files, p) == Lookup(files, p) {
          RevertedAt(re, files, ops, cs, p);
        }
        SameFiles(r.files, files);
      } else {
        var k :| 0 <= k < |cs| && !Recoverable(re, files, cs[k].path);
        RevertThere(cs, w.files, k);
      }
    }
  }

  lemma RevertedAt(re: Reencode, files: Files, ops: seq<Op>, cs: seq<Change>, p: string)
    requires Bracketed(ops)
    requires var w := Play(re, files, ops);
             && (forall q <- w.turn.order :: q in w.turn.rows)
             && cs == Changes(w.turn.order, w.turn.rows) && Revert(cs, w.files).ok
    requires forall k :: 0 <= k < |cs| ==> Recoverable(re, files, cs[k].path)
    ensures Lookup(Revert(cs, Play(re, files, ops).files).files, p) == Lookup(files, p)
  {
    var w := Play(re, files, ops);
    RowsOrdered(re, files, ops);
    ChangesAre(w.turn.order, w.turn.rows);
    CapturesKnow(re, files, ops, p);
    if k :| 0 <= k < |cs| && cs[k].path == p {
      RevertThere(cs, w.files, k);
    } else {
      RevertElsewhere(cs, w.files, p);
      if p in Dirty(ops) {
        DirtyHasLateWrite(ops, p);
      }
      if p in w.turn.rows && w.turn.rows[p].before != w.turn.rows[p].after {
        var k := ChangesCover(w.turn.order, w.turn.rows, p);
      }
    }
  }

  lemma SameFiles(a: Files, b: Files)
    requires forall p :: Lookup(a, p) == Lookup(b, p)
    ensures a == b
  {
    forall p ensures p in a <==> p in b {
      assert Lookup(a, p) == Lookup(b, p);
    }
    forall p | p in a ensures a[p] == b[p] {
      assert Lookup(a, p) == Lookup(b, p);
    }
  }

  /** Without the capture_before, reverting an overwrite deletes the file. */
  lemma AfterAloneDeletes(re: Reencode, p: string, was: Bytes, now: Bytes)
    ensures var w := Play(re, map[p := was], [Write(p, Some(now)), CaptureAfter(p)]);
            && w.turn.order == [p] && p in w.turn.rows
            && Revert(Changes(w.turn.order, w.turn.rows), w.files) == Reverted(map[], true)
  {
    var files, ops := map[p := was], [Write(p, Some(now)), CaptureAfter(p)];
    AfterAlone(re, p, was, now);
    var w := Play(re, files, ops);
    var cs := Changes(w.turn.order, w.turn.rows);
    assert w.turn.order[..0] == [] && Changes(w.turn.order[..0], w.turn.rows) == [];
    assert cs == [Change(p, None, FileState(re, w.files, p))];
    assert cs[..0] == [] && Revert(cs[..0], map[]) == Reverted(map[], true);
    assert Restore(cs[0], w.files) == map[];
  }

  lemma AfterAlone(re: Reencode, p: string, was: Bytes, now: Bytes)
    ensures var files: Files := map[p := now];
            Play(re, map[p := was], [Write(p, Some(now)), CaptureAfter(p)])
            == Work(files, Turn([p], map[p := Row(None, FileState(re, files, p))]))
  {
    var ops := [Write(p, Some(now)), CaptureAfter(p)];
    assert ops[..1] == [ops[0]] && ops[..1][..0] == [];
    assert Play(re, map[p := was], ops[..1]) == Work(map[p := now], EMPTY);
    assert EMPTY.order + [p] == [p];
  }

  // ---------- Many turns ----------

  /** The newest records of a list. */
  function Keep<T>(records: seq<T>, most: nat): seq<T> {
    if |records| > most then records[|records| - most..] else records
  }

  function FilesAfter(re: Reencode, files: Files, turns: seq<seq<Op>>): Files {
    if turns == [] then files
    else Play(re, FilesAfter(re, files, turns[..|turns| - 1]), turns[|turns| - 1]).files
  }

  /** The changes of each sealed turn, as the ledger keeps them. */
  function Sealed(re: Reencode, files: Files, turns: seq<seq<Op>>): seq<seq<Change>> {
    if turns == [] then []
    else
      var n := |turns| - 1;
      var w := Play(re, FilesAfter(re, files, turns[..n]), turns[n]);
      RowsOrdered(re, FilesAfter(re, files, turns[..n]), turns[n]);
      Keep(Sealed(re, files, turns[..n]) + [Changes(w.turn.order, w.turn.rows)], KEPT_EVENTS)
  }

  /** Reverting the listed events, newest first. */
  function RevertNewestFirst(events: seq<seq<Change>>, files: Files): Reverted {
    if events == [] then Reverted(files, true)
    else
      var r := Revert(events[|events| - 1], files);
      if r.ok then RevertNewestFirst(events[..|events| - 1], r.files) else r
  }

  ghost predicate AllRecoverable(re: Reencode, files: Files, ops: seq<Op>) {
    forall k :: 0 <= k < |ops| ==> Recoverable(re, files, ops[k].path)
  }

  /** Main result: at most 250 bracketed turns, each starting from recoverable files, are all
      undone by reverting newest first. */
  lemma {:induction false} TurnsAreUndone(re: Reencode, files: Files, turns: seq<seq<Op>>)
    requires |turns| <= KEPT_EVENTS
    requires forall t :: 0 <= t < |turns| ==>
               Bracketed(turns[t]) && AllRecoverable(re, FilesAfter(re, files, turns[..t]), turns[t])
    ensures |Sealed(re, files, turns)| == |turns|
    ensures RevertNewestFirst(Sealed(re, files, turns), FilesAfter(re, files, turns)) == Reverted(files, true)
  {
    hide Play, Changes, Revert, Bracketed, Recoverable, AllRecoverable;
    if turns != [] {
      var n := |turns| - 1;
      assert forall t :: 0 <= t < n ==> turns[..n][..t] == turns[..t];
      TurnsAreUndone(re, files, turns[..n]);
      var start := FilesAfter(re, files, turns[..n]);
      var w := Play(re, start, turns[n]);
      RowsOrdered(re, start, turns[n]);
      var cs := Changes(w.turn.order, w.turn.rows);
      NewestIsUndone(re, start, turns[n]);
      var events := Sealed(re, files, turns);
      assert events == Sealed(re, files, turns[..n]) + [cs];
      assert events[..n] == Sealed(re, files, turns[..n]);
    }
  }

  lemma NewestIsUndone(re: Reencode, start: Files, ops: seq<Op>)
    requires Bracketed(ops) && AllRecoverable(re, start, ops)
    ensures var w := Play(re, start, ops);
            && (forall p <- w.turn.order :: p in w.turn.rows)
            && Revert(Changes(w.turn.order, w.turn.rows), w.files) == Reverted(start, true)
  {
    var w := Play(re, start, ops);
    TurnIsUndone(re, start, ops);
    RowsOrdered(re, start, ops);
    ChangesAre(w.turn.order, w.turn.rows);
    var cs := Changes(w.turn.order, w.turn.rows);
    forall k | 0 <= k < |cs| ensures Recoverable(re, start, cs[k].path) {
      assert ChangeOf(cs[k], w.turn.order, w.turn.rows);
      RowsNamed(re, start, ops, cs[k].path);
    }
  }

  lemma {:induction false} RowsNamed(re: Reencode, files: Files, ops: seq<Op>, p: string)
    requires p in Play(re, files, ops).turn.rows
    ensures exists k :: 0 <= k < |ops| && ops[k].path == p
  {
    var n := |ops| - 1;
    if ops[n].path != p {
      RowsNamed(re, files, ops[..n], p);
      var k :| 0 <= k < n && ops[..n][k].path == p;
      assert ops[k].path == p;
    }
  }

  // ---------- The ledger ----------

  datatype Decision = KeepIt | RevertIt | Other

  /** A recorded decision, with the paths that a revert restored. */
  datatype ReviewRecord = ReviewRecord(checkpointId: nat, decision: Decision, restored: seq<string>)

  /** after is before with one record more, less the oldest ones where there are more than most. */
  ghost predicate Newest<T(!new)>(after: seq<T>, before: seq<T>, record: T, most: nat) {
    var n := |after|;
    && n == (if |before| < most then |before| + 1 else most) && n > 0 && after[n - 1] == record
    && forall k :: 0 <= k < n - 1 ==> after[k] == before[|before| - (n - 1) + k]
  }

  lemma KeepsNewest<T(!new)>(before: seq<T>, record: T, most: nat)
    requires |before| <= most && most > 0
    ensures Newest(Keep(before + [record], most), before, record, most)
  {
  }

  /** The changes are the rows whose states before and after differ, each once, in the order in which
      their paths were first captured. */
  ghost predicate RecordsDiffering(changes: seq<Change>, t: Turn) {
    && (forall c <- changes :: c.path in t.rows && c.before == t.rows[c.path].before
                               && c.after == t.rows[c.path].after && c.before != c.after)
    && (forall p <- t.order :: p in t.rows && t.rows[p].before != t.rows[p].after ==>
          exists k :: 0 <= k < |changes| && changes[k].path == p)
    && (forall i, j :: 0 <= i < j < |changes| ==>
          exists a, b :: 0 <= a < b < |t.order| && t.order[a] == changes[i].path && t.order[b] == changes[j].path)
  }

  lemma {:induction false} ChangesOrdered(order: seq<string>, rows: map<string, Row>, i: nat, j: nat)
    returns (a: nat, b: nat)
    requires forall p <- order :: p in rows
    requires i < j < |Changes(order, rows)|
    ensures a < b < |order| && order[a] == Changes(order, rows)[i].path && order[b] == Changes(order, rows)[j].path
  {
    var n := |order| - 1;
    var before := Changes(order[..n], rows);
    if j < |before| {
      a, b := ChangesOrdered(order[..n], rows, i, j);
    } else {
      a := ChangePlace(order[..n], rows, i);
      b := n;
    }
  }

  lemma {:induction false} ChangePlace(order: seq<string>, rows: map<string, Row>, i: nat) returns (a: nat)
    requires forall p <- order :: p in rows
    requires i < |Changes(order, rows)|
    ensures a < |order| && order[a] == Changes(order, rows)[i].path
  {
    var n := |order| - 1;
    if i < |Changes(order[..n], rows)| {
      a := ChangePlace(order[..n], rows, i);
    } else {
      a := n;
    }
  }

  lemma ChangesDiffer(t: Turn)
    requires Distinct(t.order) && forall p :: p in t.rows <==> p in t.order
    ensures RecordsDiffering(Changes(t.order, t.rows), t)
  {
    var changes := Changes(t.order, t.rows);
    ChangesAre(t.order, t.rows);
    forall c | c in changes
      ensures c.path in t.rows && c.before == t.rows[c.path].before && c.after == t.rows[c.path].after
              && c.before != c.after
    {
      var k :| 0 <= k < |changes| && changes[k] == c;
      assert ChangeOf(changes[k], t.order, t.rows);
    }
    forall p | p in t.order && t.rows[p].before != t.rows[p].after
      ensures exists k :: 0 <= k < |changes| && changes[k].path == p
    {
      var k := ChangesCover(t.order, t.rows, p);
    }
    forall i, j | 0 <= i < j < |changes|
      ensures exists a, b :: 0 <= a < b < |t.order| && t.order[a] == changes[i].path && t.order[b] == changes[j].path
    {
      var a, b := ChangesOrdered(t.order, t.rows, i, j);
    }
  }

  /** After a turn's steps a path has what was written last, by step k, or with k < 0 what it had. */
  lemma {:induction false} LastWriteStands(re: Reencode, files: Files, ops: seq<Op>, p: string, k: int)
    requires -1 <= k < |ops| && (k >= 0 ==> ops[k].Write? && ops[k].path == p)
    requires forall j :: k < j < |ops| && ops[j].Write? ==> ops[j].path != p
    ensures Lookup(Play(re, files, ops).files, p) == if k < 0 then Lookup(files, p) else ops[k].contents
  {
    if ops != [] {
      var n := |ops| - 1;
      if k < n {
        LastWriteStands(re, files, ops[..n], p, k);
      }
    }
  }

  class GoarCheckpointLedger {
    const re: Reencode
    /** The workspace on disk. */
    var files: Files
    var open: Option<Turn>
    var turnId: string
    var events: seq<Event>
    var reviews: seq<ReviewRecord>
    var nextId: nat

    constructor (re: Reencode, files: Files)
      ensures this.re == re && this.files == files && open == None && events == [] && reviews == [] && Valid()
    {
      this.re, this.files := re, files;
      open, turnId, events, reviews, nextId := None, "", [], [], 0;
    }

    ghost predicate Valid()
      reads this
    {
      && (open.Some? ==> Distinct(open.value.order) && forall p :: p in open.value.rows <==> p in open.value.order)
      && |events| <= KEPT_EVENTS && |reviews| <= KEPT_REVIEWS
      && (forall k :: 0 <= k < |events| ==> events[k].id < nextId)
      && (forall i, j :: 0 <= i < j < |events| ==> events[i].id != events[j].id)
    }

    method Begin(turn: string) returns (ok: bool)
      requires Valid()
      modifies `open, `turnId
      ensures Valid() && ok == old(open).None?
      ensures if ok then open == Some(EMPTY) && turnId == turn else open == old(open) && turnId == old(turnId)
    {
      if open.Some? {
        return false;
      }
      open, turnId := Some(EMPTY), turn;
      return true;
    }

    method CaptureBefore(path: string)
      requires Valid()
      modifies `open
      ensures Valid()
      ensures open == if old(open).None? then None
                      else Some(Step(re, Work(files, old(open).value), Op.CaptureBefore(path)).turn)
    {
      if open.None? {
        return;
      }
      if path !in open.value.rows {
        var state := FileState(re, files, path);
        open := Some(Turn(open.value.order + [path], open.value.rows[path := Row(state, None)]));
      }
    }

    method CaptureAfter(path: string)
      requires Valid()
      modifies `open
      ensures Valid()
      ensures open == if old(open).None? then None
                      else Some(Step(re, Work(files, old(open).value), Op.CaptureAfter(path)).turn)
    {
      if open.None? {
        return;
      }
      var t := open.value;
      if path !in t.rows {
        t := Turn(t.order + [path], t.rows[path := Row(None, None)]);
      }
      var state := FileState(re, files, path);
      open := Some(t.(rows := t.rows[path := t.rows[path].(after := state)]));
    }

    /** A tool writes or deletes a file. */
    method WriteFile(path: string, contents: Option<Bytes>)
      requires Valid()
      modifies `files
      ensures Valid() && files == Step(re, Work(old(files), EMPTY), Write(path, contents)).files
      ensures files == if contents.Some? then old(files)[path := contents.value] else old(files) - {path}
    {
      files := if contents.Some? then files[path := contents.value] else files - {path};
    }

    method AddEvent(event: Event)
      requires Valid() && event.id < nextId && forall k :: 0 <= k < |events| ==> events[k].id != event.id
      modifies `events
      ensures Valid() && events == Keep(old(events) + [event], KEPT_EVENTS)
    {
      events := events + [event];
      if |events| > KEPT_EVENTS {
        events := events[|events| - KEPT_EVENTS..];
      }
    }

    method Seal() returns (record: Option<Event>)
      requires Valid()
      modifies `open, `events, `nextId
      ensures Valid() && open == None
      ensures old(open).None? ==> record == None && events == old(events)
      ensures old(open).Some? ==>
                && record == Some(Event(old(nextId), turnId, Changes(old(open).value.order, old(open).value.rows)))
                && events == Keep(old(events) + [record.value], KEPT_EVENTS)
                && Newest(events, old(events), record.value, 250)
      ensures old(open).Some? ==> RecordsDiffering(record.value.changes, old(open).value)
    {
      if open.None? {
        return None;
      }
      hide Newest, RecordsDiffering, Keep, Changes;
      var t := open.value;
      open := None;
      ghost var before := events;
      var changes := Compare(t);
      ChangesDiffer(t);
      var event := Event(nextId, turnId, changes);
      nextId := nextId + 1;
      record := Some(event);
      AddEvent(event);
      KeepsNewest(before, event, KEPT_EVENTS);
    }

    /** The loop of a seal: the rows that differ, in the order of their first capture. */
    method Compare(t: Turn) returns (changes: seq<Change>)
      requires forall p <- t.order :: p in t.rows
      ensures changes == Changes(t.order, t.rows)
    {
      changes := [];
      var i := 0;
      while i < |t.order|
        invariant i <= |t.order| && changes == Changes(t.order[..i], t.rows)
      {
        var path := t.order[i];
        var row := t.rows[path];
        assert t.order[..i + 1][..i] == t.order[..i];
        if row.before != row.after {
          changes := changes + [Change(path, row.before, row.after)];
        }
        i := i + 1;
      }
      assert t.order[..|t.order|] == t.order;
    }

    /** A revert that raises has restored what came before the failing change and records nothing. */
    method Review(checkpointId: nat, decision: Decision) returns (r: Result<seq<string>, string>)
      requires Valid()
      modifies `files, `reviews
      ensures Valid()
      ensures reviews == if r.Err? then old(reviews)
                         else Keep(old(reviews) + [ReviewRecord(checkpointId, decision, r.value)], KEPT_REVIEWS)
      ensures r.Ok? ==> Newest(reviews, old(reviews), ReviewRecord(checkpointId, decision, r.value), 500)
      ensures decision.Other? || (forall k :: 0 <= k < |events| ==> events[k].id != checkpointId) ==>
                r.Err? && files == old(files)
      ensures decision.KeepIt? ==> files == old(files)
      ensures decision.KeepIt? && (exists k :: 0 <= k < |events| && events[k].id == checkpointId) ==> r == Ok([])
      ensures forall k :: 0 <= k < |events| && events[k].id == checkpointId && decision.RevertIt? ==>
                var done := Revert(events[k].changes, old(files));
                files == done.files && r.Ok? == done.ok
      ensures forall k :: 0 <= k < |events| && events[k].id == checkpointId && decision.RevertIt? && r.Ok? ==>
                |r.value| == |events[k].changes|
                && forall i :: 0 <= i < |r.value| ==> r.value[i] == events[k].changes[|r.value| - 1 - i].path
    {
      hide Newest, Keep, Revert;
      if decision.Other? {
        return Err("decision must be keep or revert");
      }
      var e := 0;
      while e < |events| && events[e].id != checkpointId
        invariant e <= |events| && forall k :: 0 <= k < e ==> events[k].id != checkpointId
      {
        e := e + 1;
      }
      if e == |events| {
        return Err("checkpoint not found");
      }
      var restored := [];
      if decision.RevertIt? {
        var done := RestoreAll(events[e].changes);
        if done.Err? {
          return done;
        }
        restored := done.value;
      }
      KeepsNewest(reviews, ReviewRecord(checkpointId, decision, restored), KEPT_REVIEWS);
      AddReview(ReviewRecord(checkpointId, decision, restored));
      return Ok(restored);
    }

    method AddReview(review: ReviewRecord)
      requires Valid()
      modifies `reviews
      ensures Valid() && reviews == Keep(old(reviews) + [review], KEPT_REVIEWS)
    {
      reviews := reviews + [review];
      if |reviews| > KEPT_REVIEWS {
        reviews := reviews[|reviews| - KEPT_REVIEWS..];
      }
    }

    /** The loop of a revert: the newest change first, until one cannot be restored. */
    method RestoreAll(changes: seq<Change>) returns (r: Result<seq<string>, string>)
      modifies `files
      ensures var done := Revert(changes, old(files)); files == done.files && r.Ok? == done.ok
      ensures r.Ok? ==>
                |r.value| == |changes|
                && forall i :: 0 <= i < |r.value| ==> r.value[i] == changes[|r.value| - 1 - i].path
    {
      var restored := [];
      var i := |changes|;
      assert changes[..i] == changes;
      while i > 0
        invariant i <= |changes| && |restored| == |changes| - i
        invariant Revert(changes[..i], files) == Revert(changes, old(files))
        invariant forall m :: 0 <= m < |restored| ==> restored[m] == changes[|changes| - 1 - m].path
      {
        i := i - 1;
        assert changes[..i + 1][..i] == changes[..i];
        var c := changes[i];
        if c.before.None? {
          files := files - {c.path};
        } else {
          if c.before.value.text.None? {
            return Err("no bounded text snapshot");
          }
          files := files[c.path := c.before.value.text.value];
        }
        restored := restored + [c.path];
      }
      return Ok(restored);
    }
  
    // ---------- Whole sessions ----------

    /** One step of a turn: a capture, or a tool's write. */
    method Do(op: Op)
      requires Valid() && open.Some?
      modifies `open, `files
      ensures Valid() && open.Some?
      ensures Work(files, open.value) == Step(re, Work(old(files), old(open).value), op)
    {
      match op {
        case CaptureBefore(path) => CaptureBefore(path);
        case CaptureAfter(path) => CaptureAfter(path);
        case Write(path, contents) => WriteFile(path, contents);
      }
    }

    /** A turn from begin to seal. */
    method RunTurn(turn: string, ops: seq<Op>)
      requires Valid() && open.None?
      modifies `open, `turnId, `files, `events, `nextId
      ensures Valid() && open.None?
      ensures var w := Play(re, old(files), ops);
              && files == w.files && (forall p <- w.turn.order :: p in w.turn.rows)
              && var event := Event(old(nextId), turn, Changes(w.turn.order, w.turn.rows));
                 events == Keep(old(events) + [event], KEPT_EVENTS)
    {
      hide Step, Changes;
      var ok := Begin(turn);
      var i := 0;
      PlayNothing(re, files);
      assert ops[..0] == [];
      while i < |ops|
        invariant i <= |ops| && Valid() && open.Some?
        invariant turnId == turn && events == old(events) && nextId == old(nextId)
        invariant Work(files, open.value) == Play(re, old(files), ops[..i])
      {
        assert ops[..i + 1][..i] == ops[..i];
        Do(ops[i]);
        i := i + 1;
      }
      assert ops[..i] == ops;
      RowsOrdered(re, old(files), ops);
      var record := Seal();
    }

    /** Turns one after another: the newest events are theirs. */
    method RunTurns(turns: seq<seq<Op>>)
      requires Valid() && open.None? && |turns| <= KEPT_EVENTS
      modifies `open, `turnId, `files, `events, `nextId
      ensures Valid() && open.None? && files == FilesAfter(re, old(files), turns)
      ensures NewestAre(events, Sealed(re, old(files), turns)) && |Sealed(re, old(files), turns)| == |turns|
    {
      hide Play, Changes, NewestAre;
      ghost var start := files;
      var i := 0;
      NoneSealed(re, start, events);
      assert turns[..0] == [];
      while i < |turns|
        invariant i <= |turns| && Valid() && open.None?
        invariant files == FilesAfter(re, start, turns[..i])
        invariant NewestAre(events, Sealed(re, start, turns[..i])) && |Sealed(re, start, turns[..i])| == i
      {
        ghost var before := events;
        SealedOneMore(re, start, turns, i);
        RunTurn("turn", turns[i]);
        NewestOneMore(before, Sealed(re, start, turns[..i]), events[|events| - 1]);
        i := i + 1;
      }
      assert turns[..i] == turns;
    }

    /** Main result on the ledger itself: turns run one after another, and then reviewed newest
        first with the decision to revert, leave the files they started from. */
    method RunAndRevert(turns: seq<seq<Op>>)
      requires Valid() && open.None? && |turns| <= KEPT_EVENTS
      requires forall t :: 0 <= t < |turns| ==>
                 Bracketed(turns[t]) && AllRecoverable(re, FilesAfter(re, files, turns[..t]), turns[t])
      modifies `open, `turnId, `files, `events, `nextId, `reviews
      ensures Valid() && open.None? && files == old(files)
    {
      hide Bracketed, AllRecoverable, FilesAfter, Sealed;
      ghost var start := files;
      TurnsAreUndone(re, start, turns);
      RunTurns(turns);
      RevertNewest(|turns|, Sealed(re, start, turns));
    }

    /** The reviews, newest event first. */
    method RevertNewest(n: nat, ghost sealed: seq<seq<Change>>)
      requires Valid() && n == |sealed| <= |events| && NewestAre(events, sealed)
      requires RevertNewestFirst(sealed, files).ok
      modifies `files, `reviews
      ensures Valid() && files == RevertNewestFirst(sealed, old(files)).files
    {
      hide Revert, Newest, Keep;
      ghost var goal := RevertNewestFirst(sealed, files);
      var i := 0;
      assert sealed[..n] == sealed;
      while i < n
        invariant i <= n && Valid() && RevertNewestFirst(sealed[..n - i], files) == goal
      {
        var k := |events| - 1 - i;
        ghost var left := sealed[..n - i];
        assert events[k].changes == sealed[n - 1 - i] == left[|left| - 1];
        assert left[..|left| - 1] == sealed[..n - i - 1];
        var done := Review(events[k].id, RevertIt);
        i := i + 1;
      }
      assert sealed[..0] == [];
    }
  }

  /** The newest events are those of the turns sealed. */
  ghost predicate NewestAre(events: seq<Event>, sealed: seq<seq<Change>>) {
    && |sealed| <= |events|
    && forall k :: 0 <= k < |sealed| ==> events[|events| - |sealed| + k].changes == sealed[k]
  }

  lemma NoneSealed(re: Reencode, files: Files, events: seq<Event>)
    ensures FilesAfter(re, files, []) == files && Sealed(re, files, []) == [] && NewestAre(events, [])
  {
  }

  lemma PlayNothing(re: Reencode, files: Files)
    ensures Play(re, files, []) == Work(files, EMPTY)
  {
  }

  lemma NewestOneMore(before: seq<Event>, sealed: seq<seq<Change>>, event: Event)
    requires NewestAre(before, sealed) && |sealed| < KEPT_EVENTS && |before| <= KEPT_EVENTS
    ensures NewestAre(Keep(before + [event], KEPT_EVENTS), sealed + [event.changes])
  {
    var events := Keep(before + [event], KEPT_EVENTS);
    var n := |sealed|;
    forall k | 0 <= k < n + 1
      ensures events[|events| - (n + 1) + k].changes == (sealed + [event.changes])[k]
    {
      if k < n {
        assert events[|events| - (n + 1) + k] == before[|before| - n + k];
      }
    }
  }

  /** Fewer than 250 sealed turns are all kept. */
  lemma SealedOneMore(re: Reencode, files: Files, turns: seq<seq<Op>>, i: nat)
    requires i < |turns| && |Sealed(re, files, turns[..i])| == i < KEPT_EVENTS
    ensures var w := Play(re, FilesAfter(re, files, turns[..i]), turns[i]);
            && (forall p <- w.turn.order :: p in w.turn.rows)
            && Sealed(re, files, turns[..i + 1]) == Sealed(re, files, turns[..i]) + [Changes(w.turn.order, w.turn.rows)]
            && FilesAfter(re, files, turns[..i + 1]) == w.files
  {
    hide Play, Changes;
    assert turns[..i + 1][..i] == turns[..i];
    RowsOrdered(re, FilesAfter(re, files, turns[..i]), turns[i]);
  }
}
