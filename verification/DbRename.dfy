/** The one-time rename of the controller's SQLite files (internal/config/config.go): the
    main file moves last, a failed move is undone, and nothing is ever overwritten. */
module DbRename {

  datatype Entry = Regular(content: string) | Special

  type Files = map<string, Entry>

  /** The tree after a rename, which replaces what is at the destination. */
  function Relocate(files: Files, from: string, to: string): (r: Files) {
    if from in files then files - {from} + map[to := files[from]] else files
  }

  datatype Lookup = Missing | Found | Unusable

  /** A directory tree whose operations fail as an arbitrary oracle says, one answer per
      operation. `history` records the tree after every successful rename. */
  class Directory {
    const faults: nat -> bool
    var files: Files
    var calls: nat
    ghost var history: seq<Files>

    constructor (files: Files, faults: nat -> bool)
      ensures this.files == files && this.faults == faults && calls == 0 && history == []
    {
      this.files, this.faults, calls, history := files, faults, 0, [];
    }

    /** Lstat, and whether what is there is a regular file. */
    method Stat(path: string) returns (r: Lookup)
      modifies this`calls
      ensures calls == old(calls) + 1
      ensures r == if faults(old(calls)) then Unusable
                   else if path !in files then Missing
                   else if files[path].Regular? then Found else Unusable
    {
      calls := calls + 1;
      if faults(calls - 1) {
        r := Unusable;
      } else if path !in files {
        r := Missing;
      } else {
        r := if files[path].Regular? then Found else Unusable;
      }
    }

    method Rename(from: string, to: string) returns (ok: bool)
      modifies this
      ensures calls == old(calls) + 1
      ensures ok == (!faults(old(calls)) && from in old(files))
      ensures files == if ok then Relocate(old(files), from, to) else old(files)
      ensures ok ==> history == old(history) + [files]
      ensures !ok ==> history == old(history)
    {
      calls := calls + 1;
      ok := !faults(calls - 1) && from in files;
      if ok {
        files := Relocate(files, from, to);
        history := history + [files];
      }
    }
  }

  const SUFFIXES: seq<string> := ["-wal", "-shm", "-journal", ""]

  datatype Move = Move(from: string, to: string)

  /** The renames of the files that are there, in the order of the suffixes. */
  function Plan(files: Files, oldPath: string, newPath: string, suffixes: seq<string>): (r: seq<Move>) {
    if suffixes == [] then []
    else
      var n := |suffixes| - 1;
      Plan(files, oldPath, newPath, suffixes[..n])
      + (if oldPath + suffixes[n] in files then [Move(oldPath + suffixes[n], newPath + suffixes[n])] else [])
  }

  /** The tree once the given renames are done, in order. */
  function Advance(was: Files, moves: seq<Move>): (r: Files) {
    if moves == [] then was
    else
      var last := moves[|moves| - 1];
      Relocate(Advance(was, moves[..|moves| - 1]), last.from, last.to)
  }

  /** `now` is the tree after some prefix of the renames. */
  ghost predicate Prefix(was: Files, now: Files, moves: seq<Move>) {
    exists k :: 0 <= k <= |moves| && now == Advance(was, moves[..k])
  }

  /** Renames of different files to different vacant names. */
  ghost predicate Ready(was: Files, moves: seq<Move>) {
    && (forall i | 0 <= i < |moves| :: moves[i].from in was && moves[i].to !in was)
    && (forall i, j | 0 <= i < j < |moves| :: moves[i].from != moves[j].from && moves[i].to != moves[j].to)
  }

  /** What is where after the renames. */
  ghost predicate Placed(was: Files, now: Files, moves: seq<Move>) {
    Arrived(was, now, moves) && NothingElse(was, now, moves)
  }

  /** Every moved file is at its new name, with its content; a file still at its old name has
      its content too. */
  ghost predicate Arrived(was: Files, now: Files, moves: seq<Move>) {
    && (forall m | m in moves :: m.from !in now && m.to in now && m.from in was && now[m.to] == was[m.from])
    && (forall p | p in was && p in now :: now[p] == was[p])
  }

  /** Names come and go by a move only. */
  ghost predicate NothingElse(was: Files, now: Files, moves: seq<Move>) {
    && (forall p | p in was && p !in now :: IsSource(moves, p))
    && (forall p | p in now && p !in was :: IsTarget(moves, p))
  }

  ghost predicate IsSource(moves: seq<Move>, p: string) { exists m :: m in moves && p == m.from }

  ghost predicate IsTarget(moves: seq<Move>, p: string) { exists m :: m in moves && p == m.to }

  lemma {:induction false} AdvancePlaces(was: Files, moves: seq<Move>)
    requires Ready(was, moves)
    ensures Placed(was, Advance(was, moves), moves)
  {
    if moves != [] {
      var n := |moves| - 1;
      assert moves == moves[..n] + [moves[n]];
      AdvancePlaces(was, moves[..n]);
      PlaceOneMore(was, Advance(was, moves[..n]), moves[..n], moves[n]);
    }
  }

  lemma PlaceOneMore(was: Files, now: Files, moves: seq<Move>, m: Move)
    requires Ready(was, moves + [m]) && Placed(was, now, moves)
    ensures m.from in now && m.to !in now
    ensures Placed(was, Relocate(now, m.from, m.to), moves + [m])
  {
    NewMoveIsApart(was, moves, m);
    NextIsVacant(was, now, moves, m);
    OneMoreArrives(was, now, moves, m);
    NothingElseChanges(was, now, moves, m);
  }

  lemma NextIsVacant(was: Files, now: Files, moves: seq<Move>, m: Move)
    requires NothingElse(was, now, moves) && m.from in was && m.to !in was
    requires forall x | x in moves :: x.from != m.from && x.to != m.to
    ensures m.from in now && m.to !in now
  {
    assert !IsSource(moves, m.from) && !IsTarget(moves, m.to);
  }

  lemma OneMoreArrives(was: Files, now: Files, moves: seq<Move>, m: Move)
    requires Arrived(was, now, moves) && m.from in now && m.to !in now && m.from in was && m.to !in was
    requires forall x | x in moves :: x.from != m.from && x.to != m.to && x.to !in was
    ensures Arrived(was, Relocate(now, m.from, m.to), moves + [m])
  {
  }

  lemma NothingElseChanges(was: Files, now: Files, moves: seq<Move>, m: Move)
    requires NothingElse(was, now, moves) && m.from in now
    ensures NothingElse(was, Relocate(now, m.from, m.to), moves + [m])
  {
    var next := Relocate(now, m.from, m.to);
    assert m in moves + [m];
    forall p | p in was && p !in next ensures IsSource(moves + [m], p) {
      if p !in now {
        var x :| x in moves && p == x.from;
        assert x in moves + [m];
      }
    }
    forall p | p in next && p !in was ensures IsTarget(moves + [m], p) {
      if p in now {
        var x :| x in moves && p == x.to;
        assert x in moves + [m];
      }
    }
  }

  lemma NewMoveIsApart(was: Files, moves: seq<Move>, m: Move)
    requires Ready(was, moves + [m])
    ensures m.from in was && m.to !in was
    ensures forall x | x in moves :: x.from != m.from && x.to != m.to && x.from in was && x.to !in was
  {
    assert (moves + [m])[|moves|] == m;
    forall x | x in moves ensures x.from != m.from && x.to != m.to && x.from in was && x.to !in was {
      var i :| 0 <= i < |moves| && moves[i] == x;
      assert (moves + [m])[i] == x;
    }
  }

  /** The k-th rename leads from one prefix to the next, and renaming back undoes it. */
  lemma PrefixStep(was: Files, moves: seq<Move>, k: nat)
    requires Ready(was, moves) && k < |moves|
    ensures var now, next := Advance(was, moves[..k]), Advance(was, moves[..k + 1]);
            && moves[k].from in now && moves[k].to in next
            && next == Relocate(now, moves[k].from, moves[k].to)
            && now == Relocate(next, moves[k].to, moves[k].from)
  {
    assert moves[..k + 1] == moves[..k] + [moves[k]] && moves[..k + 1][..k] == moves[..k];
    ReadyPrefix(was, moves, k);
    AdvancePlaces(was, moves[..k]);
    PlaceOneMore(was, Advance(was, moves[..k]), moves[..k], moves[k]);
    RelocateBack(Advance(was, moves[..k]), moves[k].from, moves[k].to);
  }

  lemma ReadyPrefix(was: Files, moves: seq<Move>, k: nat)
    requires Ready(was, moves) && k < |moves|
    ensures Ready(was, moves[..k]) && Ready(was, moves[..k] + [moves[k]])
  {
    assert moves[..k + 1] == moves[..k] + [moves[k]];
  }

  lemma RelocateBack(files: Files, a: string, b: string)
    requires a in files && b !in files
    ensures b in Relocate(files, a, b) && Relocate(Relocate(files, a, b), b, a) == files
  {
  }

  /** Every tree recorded since `start` is the first one after a prefix of the renames. */
  ghost predicate Recorded(was: Files, history: seq<Files>, start: nat, moves: seq<Move>) {
    && |history| >= start
    && forall h | start <= h < |history| :: Prefix(was, history[h], moves)
  }

  // ------------------------------------------------------ names and suffixes

  /** No name of one family is a name of the other. */
  ghost predicate Apart(oldPath: string, newPath: string) {
    forall s, t | s in SUFFIXES && t in SUFFIXES :: oldPath + s != newPath + t
  }

  /** Nothing is at any of the new names of these suffixes. */
  ghost predicate Vacant(files: Files, newPath: string, suffixes: seq<string>) {
    forall s | s in suffixes :: newPath + s !in files
  }

  lemma Cancel(p: string, s: string, t: string)
    ensures (p + s == p + t) == (s == t)
  {
    assert (p + s)[|p|..] == s && (p + t)[|p|..] == t;
  }

  /** The plan holds exactly the renames of the files that are there. */
  lemma {:induction false} PlanIsExact(files: Files, oldPath: string, newPath: string, suffixes: seq<string>)
    ensures forall m | m in Plan(files, oldPath, newPath, suffixes) ::
              exists s :: s in suffixes && m == Move(oldPath + s, newPath + s) && oldPath + s in files
    ensures forall s | s in suffixes && oldPath + s in files ::
              Move(oldPath + s, newPath + s) in Plan(files, oldPath, newPath, suffixes)
  {
    if suffixes != [] {
      PlanIsExact(files, oldPath, newPath, suffixes[..|suffixes| - 1]);
    }
  }

  lemma {:induction false} PlanIsReady(files: Files, oldPath: string, newPath: string, suffixes: seq<string>)
    requires Vacant(files, newPath, suffixes)
    requires forall i, j | 0 <= i < j < |suffixes| :: suffixes[i] != suffixes[j]
    ensures Ready(files, Plan(files, oldPath, newPath, suffixes))
  {
    if suffixes != [] {
      var n := |suffixes| - 1;
      var prefix, s := suffixes[..n], suffixes[n];
      PlanIsReady(files, oldPath, newPath, prefix);
      PlanIsExact(files, oldPath, newPath, prefix);
      var moves := Plan(files, oldPath, newPath, prefix);
      forall i | 0 <= i < |moves|
        ensures moves[i].from != oldPath + s && moves[i].to != newPath + s
      {
        assert moves[i] in moves;
        var t :| t in prefix && moves[i] == Move(oldPath + t, newPath + t);
        Cancel(oldPath, s, t);
        Cancel(newPath, s, t);
      }
    }
  }

  datatype Outcome = Renamed | Refused | Undone | UndoFailed

  /** Why the preflight turns the rename down when no operation faults. */
  ghost predicate Conflicting(files: Files, oldPath: string, newPath: string) {
    exists s :: s in SUFFIXES && (newPath + s in files || (oldPath + s in files && files[oldPath + s].Special?))
  }

  method RenameSqliteFile(dir: Directory, oldPath: string, newPath: string) returns (r: Outcome)
    modifies dir
    ensures r.Renamed? ==> dir.files == Advance(old(dir.files), Plan(old(dir.files), oldPath, newPath, SUFFIXES))
    ensures r.Refused? || r.Undone? ==> dir.files == old(dir.files)
    ensures r.UndoFailed? ==> Prefix(old(dir.files), dir.files, Plan(old(dir.files), oldPath, newPath, SUFFIXES))
    ensures !r.Refused? ==> Vacant(old(dir.files), newPath, SUFFIXES)
    // the tree was a prefix of the moves after every single rename
    ensures Recorded(old(dir.files), dir.history, |old(dir.history)|, Plan(old(dir.files), oldPath, newPath, SUFFIXES))
    // without faults the rename goes through, or is refused for a conflict
    ensures FaultFree(dir.faults) ==>
              r == if Conflicting(old(dir.files), oldPath, newPath) then Refused else Renamed
  {
    var ok, moves := Preflight(dir, oldPath, newPath);
    if !ok {
      return Refused;
    }
    PlanIsReady(dir.files, oldPath, newPath, SUFFIXES);
    r := MoveAll(dir, moves);
  }

  ghost predicate FaultFree(faults: nat -> bool) {
    forall n :: !faults(n)
  }

  /** Looks at every destination and source before the first move. */
  method Preflight(dir: Directory, oldPath: string, newPath: string) returns (ok: bool, moves: seq<Move>)
    modifies dir`calls
    ensures ok ==> moves == Plan(dir.files, oldPath, newPath, SUFFIXES)
    ensures ok ==> !Conflicting(dir.files, oldPath, newPath) && Vacant(dir.files, newPath, SUFFIXES)
    ensures FaultFree(dir.faults) && !ok ==> Conflicting(dir.files, oldPath, newPath)
  {
    ok, moves := false, [];
    for i := 0 to |SUFFIXES|
      invariant moves == Plan(dir.files, oldPath, newPath, SUFFIXES[..i])
      invariant forall s | s in SUFFIXES[..i] ::
                  newPath + s !in dir.files && (oldPath + s in dir.files ==> dir.files[oldPath + s].Regular?)
    {
      var suffix := SUFFIXES[i];
      assert SUFFIXES[..i + 1][..i] == SUFFIXES[..i];
      var atNew := dir.Stat(newPath + suffix);
      if !atNew.Missing? {
        return;
      }
      var atOld := dir.Stat(oldPath + suffix);
      if atOld.Unusable? {
        return;
      }
      if atOld.Found? {
        moves := moves + [Move(oldPath + suffix, newPath + suffix)];
      }
    }
    assert SUFFIXES[..|SUFFIXES|] == SUFFIXES;
    ok := true;
  }

  /** The moving loop of the rename, with its nested undoing loop. */
  method MoveAll(dir: Directory, moves: seq<Move>) returns (r: Outcome)
    requires Ready(dir.files, moves)
    modifies dir
    ensures r.Renamed? ==> dir.files == Advance(old(dir.files), moves)
    ensures r.Undone? ==> dir.files == old(dir.files)
    ensures r.UndoFailed? ==> Prefix(old(dir.files), dir.files, moves)
    ensures !r.Refused?
    ensures Recorded(old(dir.files), dir.history, |old(dir.history)|, moves)
    ensures FaultFree(dir.faults) ==> r.Renamed?
  {
    ghost var was := dir.files;
    for i := 0 to |moves|
      invariant dir.files == Advance(was, moves[..i])
      invariant Recorded(was, dir.history, |old(dir.history)|, moves)
    {
      PrefixStep(was, moves, i);
      var ok := dir.Rename(moves[i].from, moves[i].to);
      if !ok {
        var j := i;
        while j > 0
          invariant 0 <= j <= i
          invariant dir.files == Advance(was, moves[..j])
          invariant Recorded(was, dir.history, |old(dir.history)|, moves)
        {
          j := j - 1;
          PrefixStep(was, moves, j);
          var undone := dir.Rename(moves[j].to, moves[j].from);
          if !undone {
            return UndoFailed;
          }
        }
        return Undone;
      }
    }
    assert moves[..|moves|] == moves;
    return Renamed;
  }

  // ----------------------------------------------- what a prefix of moves means

  lemma PrefixIsPlaced(was: Files, now: Files, oldPath: string, newPath: string) returns (k: nat)
    requires Vacant(was, newPath, SUFFIXES)
    requires Prefix(was, now, Plan(was, oldPath, newPath, SUFFIXES))
    ensures k <= |Plan(was, oldPath, newPath, SUFFIXES)|
    ensures var moves := Plan(was, oldPath, newPath, SUFFIXES)[..k];
            Ready(was, moves) && now == Advance(was, moves) && Placed(was, now, moves)
  {
    var plan := Plan(was, oldPath, newPath, SUFFIXES);
    k :| 0 <= k <= |plan| && now == Advance(was, plan[..k]);
    PlanIsReady(was, oldPath, newPath, SUFFIXES);
    AdvancePlaces(was, plan[..k]);
  }

  /** Where the file at a path is after some renames. */
  ghost function Whereabouts(p: string, now: Files, oldPath: string, newPath: string): (r: string) {
    if p in now then p else newPath + p[if |oldPath| <= |p| then |oldPath| else |p|..]
  }

  /** In any tree a rename passes through, no content is lost or overwritten: every entry of
      the first tree is found, unchanged, at its own or its new name, and different entries
      are found at different places. */
  lemma NothingIsLost(was: Files, now: Files, oldPath: string, newPath: string, p: string, q: string)
    requires Vacant(was, newPath, SUFFIXES)
    requires Prefix(was, now, Plan(was, oldPath, newPath, SUFFIXES))
    requires p in was && q in was && p != q
    ensures Whereabouts(p, now, oldPath, newPath) in now
    ensures now[Whereabouts(p, now, oldPath, newPath)] == was[p]
    ensures Whereabouts(p, now, oldPath, newPath) != Whereabouts(q, now, oldPath, newPath)
  {
    var k := PrefixIsPlaced(was, now, oldPath, newPath);
    var moves := Plan(was, oldPath, newPath, SUFFIXES)[..k];
    var p', q' := Whereabouts(p, now, oldPath, newPath), Whereabouts(q, now, oldPath, newPath);
    MoveOf(was, now, oldPath, newPath, k, p);
    MoveOf(was, now, oldPath, newPath, k, q);
    if p !in now && q !in now {
      DifferentTargets(was, moves, Move(p, p'), Move(q, q'));
    }
  }

  lemma DifferentTargets(was: Files, moves: seq<Move>, m: Move, m': Move)
    requires Ready(was, moves) && m in moves && m' in moves && m != m'
    ensures m.to != m'.to
  {
  }

  lemma MoveOf(was: Files, now: Files, oldPath: string, newPath: string, k: nat, p: string)
    requires k <= |Plan(was, oldPath, newPath, SUFFIXES)| && p in was
    requires Placed(was, now, Plan(was, oldPath, newPath, SUFFIXES)[..k])
    ensures p !in now ==> Move(p, Whereabouts(p, now, oldPath, newPath)) in Plan(was, oldPath, newPath, SUFFIXES)[..k]
  {
    var plan := Plan(was, oldPath, newPath, SUFFIXES);
    if p !in now {
      var m :| m in plan[..k] && p == m.from;
      assert m in plan;
      PlanIsExact(was, oldPath, newPath, SUFFIXES);
      var s :| s in SUFFIXES && m == Move(oldPath + s, newPath + s) && oldPath + s in was;
      assert p[|oldPath|..] == s;
    }
  }

  /** In any tree a rename passes through, once the main file is at its new name no sidecar
      is left at its old one. */
  lemma MainFileMovesLast(was: Files, now: Files, oldPath: string, newPath: string, s: string)
    requires Apart(oldPath, newPath) && Vacant(was, newPath, SUFFIXES)
    requires Prefix(was, now, Plan(was, oldPath, newPath, SUFFIXES))
    requires newPath + "" in now && s in SUFFIXES
    ensures oldPath + s !in now
  {
    var k := PrefixIsPlaced(was, now, oldPath, newPath);
    var plan := Plan(was, oldPath, newPath, SUFFIXES);
    assert newPath + "" !in was by {
      assert "" in SUFFIXES;
    }
    var m :| m in plan[..k] && newPath + "" == m.to;
    MainComesLast(was, oldPath, newPath, k, m);
    OldNamesAreVacated(was, oldPath, newPath, s);
  }

  lemma OldNamesAreVacated(was: Files, oldPath: string, newPath: string, s: string)
    requires Apart(oldPath, newPath) && Vacant(was, newPath, SUFFIXES) && s in SUFFIXES
    ensures oldPath + s !in Advance(was, Plan(was, oldPath, newPath, SUFFIXES))
  {
    var plan := Plan(was, oldPath, newPath, SUFFIXES);
    PlanIsReady(was, oldPath, newPath, SUFFIXES);
    PlanIsExact(was, oldPath, newPath, SUFFIXES);
    AdvancePlaces(was, plan);
    forall m | m in plan ensures oldPath + s != m.to {
      var t :| t in SUFFIXES && m == Move(oldPath + t, newPath + t) && oldPath + t in was;
    }
  }

  lemma MainComesLast(was: Files, oldPath: string, newPath: string, k: nat, m: Move)
    requires Vacant(was, newPath, SUFFIXES)
    requires k <= |Plan(was, oldPath, newPath, SUFFIXES)| && m in Plan(was, oldPath, newPath, SUFFIXES)[..k]
    requires m.to == newPath + ""
    ensures Plan(was, oldPath, newPath, SUFFIXES)[..k] == Plan(was, oldPath, newPath, SUFFIXES)
  {
    var plan := Plan(was, oldPath, newPath, SUFFIXES);
    assert SUFFIXES[3] == "" && SUFFIXES[..3] == ["-wal", "-shm", "-journal"];
    PlanIsReady(was, oldPath, newPath, SUFFIXES);
    PlanIsExact(was, oldPath, newPath, SUFFIXES);
    assert m in plan;
    var s :| s in SUFFIXES && m == Move(oldPath + s, newPath + s) && oldPath + s in was;
    Cancel(newPath, s, "");
    assert plan == Plan(was, oldPath, newPath, SUFFIXES[..3]) + [m];
    var i :| 0 <= i < k && plan[i] == m;
    assert plan[|plan| - 1] == m;
  }

  // -------------------------------------------------------------- ResolveDbPath

  datatype Resolved = Path(path: string) | Failed(outcome: Outcome) | BothExist | CannotLook

  const DB_FILE := "/transitforge.db"
  const LEGACY_DB_FILE := "/proxyctl.db"

  lemma NamesAreApart(dataDir: string)
    ensures Apart(dataDir + LEGACY_DB_FILE, dataDir + DB_FILE)
  {
    forall s, t | s in SUFFIXES && t in SUFFIXES
      ensures dataDir + LEGACY_DB_FILE + s != dataDir + DB_FILE + t
    {
      assert (dataDir + LEGACY_DB_FILE + s)[|dataDir| + 1] == 'p';
      assert (dataDir + DB_FILE + t)[|dataDir| + 1] == 't';
    }
  }

  /** The path the controller opens, after bringing files of the old name along. */
  method ResolveDbPath(dir: Directory, dataDir: string) returns (r: Resolved)
    modifies dir
    ensures r.Path? ==> r.path == dataDir + DB_FILE
    // an answer means that the files are where they were, or all under the new name
    ensures r.Path? ==>
              if dataDir + LEGACY_DB_FILE in old(dir.files)
              then dir.files == Advance(old(dir.files),
                                        Plan(old(dir.files), dataDir + LEGACY_DB_FILE, dataDir + DB_FILE, SUFFIXES))
              else dir.files == old(dir.files)
    ensures !r.Path? && r != Failed(UndoFailed) ==> dir.files == old(dir.files)
    ensures r == Failed(UndoFailed) ==>
              Vacant(old(dir.files), dataDir + DB_FILE, SUFFIXES)
              && Prefix(old(dir.files), dir.files,
                        Plan(old(dir.files), dataDir + LEGACY_DB_FILE, dataDir + DB_FILE, SUFFIXES))
    ensures r.BothExist? ==> dataDir + DB_FILE in dir.files && dataDir + LEGACY_DB_FILE in dir.files
  {
    var newPath, oldPath := dataDir + DB_FILE, dataDir + LEGACY_DB_FILE;
    var atOld := dir.Stat(oldPath);
    if atOld.Unusable? {
      return CannotLook;
    }
    var atNew := dir.Stat(newPath);
    if atNew.Unusable? {
      return CannotLook;
    }
    if atOld.Found? && atNew.Found? {
      return BothExist;
    }
    if atOld.Found? {
      NamesAreApart(dataDir);
      var outcome := RenameSqliteFile(dir, oldPath, newPath);
      if !outcome.Renamed? {
        return Failed(outcome);
      }
    }
    return Path(newPath);
  }

  /** What a successful migration leaves: every file of the old family, with its content,
      under the new name, and none under the old. */
  lemma MigrationIsComplete(was: Files, oldPath: string, newPath: string, s: string)
    requires Apart(oldPath, newPath) && Vacant(was, newPath, SUFFIXES) && s in SUFFIXES
    ensures var now := Advance(was, Plan(was, oldPath, newPath, SUFFIXES));
            && oldPath + s !in now
            && (oldPath + s in was) == (newPath + s in now)
            && (oldPath + s in was ==> now[newPath + s] == was[oldPath + s])
  {
    var plan := Plan(was, oldPath, newPath, SUFFIXES);
    PlanIsReady(was, oldPath, newPath, SUFFIXES);
    PlanIsExact(was, oldPath, newPath, SUFFIXES);
    AdvancePlaces(was, plan);
    OldNamesAreVacated(was, oldPath, newPath, s);
    forall m | m in plan && newPath + s == m.to ensures oldPath + s in was {
      var t :| t in SUFFIXES && m == Move(oldPath + t, newPath + t) && oldPath + t in was;
      Cancel(newPath, s, t);
    }
    assert oldPath + s in was ==> Move(oldPath + s, newPath + s) in plan;
  }
}
