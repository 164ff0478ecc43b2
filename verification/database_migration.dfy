/** Moving an audit database and its sidecar files to the place the daemon reads. */
module DatabaseMigration {
  import opened Wrappers

  datatype Side = Legacy | Current

  /** One file: the database path on one side, with a suffix. */
  datatype File = File(side: Side, suffix: string)

  type Disk = map<File, string>

  datatype Note =
    | NothingToDo
    | TwoDatabases
    | NoDirectory
    | Moved
    | NothingMoved
    | SplitAcross(stranded: seq<string>)

  /** The n-th rename fails, changing nothing, when `failing(n)`. */
  class StateDirectories {
    const failing: nat -> bool
    var disk: Disk
    var renames: nat

    constructor (disk: Disk, failing: nat -> bool)
      ensures this.disk == disk && this.failing == failing && renames == 0
    {
      this.disk := disk;
      this.failing := failing;
      renames := 0;
    }

    /** `renameSync`, which replaces what is at the destination. */
    method Rename(source: File, destination: File) returns (ok: bool)
      requires source != destination
      modifies this
      ensures renames == old(renames) + 1
      ensures ok <==> source in old(disk) && !failing(old(renames))
      ensures disk == if ok then Renamed(old(disk), source, destination) else old(disk)
    {
      ok := source in disk && !failing(renames);
      renames := renames + 1;
      if ok {
        disk := Renamed(disk, source, destination);
      }
    }

    /** `migrateLegacyDatabase`, for any list of suffixes (the installer's are "", "-wal" and "-shm").
        `tried` are the suffixes whose first rename succeeded. */
    method Migrate(suffixes: seq<string>, directoryMade: bool) returns (note: Note, ghost tried: seq<string>)
      modifies this
      ensures Outcome(note, disk, tried, renames) == Run(old(disk), suffixes, failing, old(renames), directoryMade)
      ensures note == NothingToDo <==> File(Legacy, "") !in old(disk)
      ensures note == TwoDatabases <==> File(Legacy, "") in old(disk) && File(Current, "") in old(disk)
      ensures note == NoDirectory <==>
        File(Legacy, "") in old(disk) && File(Current, "") !in old(disk) && !directoryMade
      ensures note.NothingMoved? || note.SplitAcross? ==> exists k: nat :: old(renames) <= k < renames && failing(k)
      ensures note.NothingToDo? || note.TwoDatabases? || note.NoDirectory? ==> disk == old(disk)
      ensures note == Moved ==> forall s :: s in tried <==> s in suffixes && File(Legacy, s) in old(disk)
      ensures note == Moved ==> AfterMoves(old(disk), disk, tried, tried)
      ensures note == NothingMoved ==> AfterMoves(old(disk), disk, tried, [])
      ensures note.SplitAcross? ==> AfterMoves(old(disk), disk, tried, note.stranded)
      ensures note.SplitAcross? ==> note.stranded != [] && forall s :: s in note.stranded ==> s in tried
      ensures forall s :: s in tried ==> s in suffixes && File(Legacy, s) in old(disk)
    {
      hide AfterMoves, Renamed, Forward, Backward;
      RunFacts(disk, suffixes, failing, renames, directoryMade);
      tried := [];
      if File(Legacy, "") !in disk {
        return NothingToDo, [];
      }
      if File(Current, "") in disk {
        return TwoDatabases, [];
      }
      if !directoryMade {
        return NoDirectory, [];
      }
      ghost var forward := Forward(disk, suffixes, failing, renames, []);
      assert suffixes[0..] == suffixes;
      var moved: seq<string> := [];
      var failed := false;
      var n := 0;
      while n < |suffixes| && !failed
        invariant 0 <= n <= |suffixes|
        invariant forward == if failed then Moves(disk, moved, renames, true)
          else Forward(disk, suffixes[n..], failing, renames, moved)
        decreases |suffixes| - n, !failed
      {
        var suffix := suffixes[n];
        ForwardStep(disk, suffixes[n..], failing, renames, moved);
        assert suffixes[n..][1..] == suffixes[n + 1..];
        if File(Legacy, suffix) in disk {
          var ok := Rename(File(Legacy, suffix), File(Current, suffix));
          if ok {
            moved := moved + [suffix];
            n := n + 1;
          } else {
            failed := true;
          }
        } else {
          n := n + 1;
        }
      }
      tried := moved;
      if !failed {
        ForwardEnd(disk, failing, renames, moved);
        assert suffixes[n..] == [];
        return Moved, tried;
      }
      ghost var backward := Backward(disk, moved, failing, renames, []);
      var stranded: seq<string> := [];
      var k: nat := |moved|;
      assert moved[..k] == moved;
      while k > 0
        invariant k <= |moved|
        invariant backward == Backward(disk, moved[..k], failing, renames, stranded)
      {
        BackwardStep(disk, moved[..k], failing, renames, stranded);
        k := k - 1;
        var suffix := moved[k];
        assert moved[..k + 1][..k] == moved[..k];
        var ok := Rename(File(Current, suffix), File(Legacy, suffix));
        if !ok {
          stranded := stranded + [suffix];
        }
      }
      BackwardEnd(disk, failing, renames, stranded);
      assert moved[..0] == [];
      note := if stranded != [] then SplitAcross(stranded) else NothingMoved;
    }
  }

  // ----- a run as a function of the disk, the suffixes and the failures -----

  datatype Moves = Moves(disk: Disk, moved: seq<string>, renames: nat, failed: bool)

  /** The first loop: renames in order until one fails. */
  function Forward(disk: Disk, suffixes: seq<string>, failing: nat -> bool, k: nat, moved: seq<string>): Moves
    decreases |suffixes|
  {
    if suffixes == [] then Moves(disk, moved, k, false)
    else if File(Legacy, suffixes[0]) !in disk then Forward(disk, suffixes[1..], failing, k, moved)
    else if failing(k) then Moves(disk, moved, k + 1, true)
    else Forward(Renamed(disk, File(Legacy, suffixes[0]), File(Current, suffixes[0])), suffixes[1..], failing, k + 1,
                 moved + [suffixes[0]])
  }

  datatype Returns = Returns(disk: Disk, stranded: seq<string>, renames: nat)

  /** The rollback: last moved, first renamed back. */
  function Backward(disk: Disk, moved: seq<string>, failing: nat -> bool, k: nat, stranded: seq<string>): Returns
    decreases |moved|
  {
    if moved == [] then Returns(disk, stranded, k)
    else
      var s := moved[|moved| - 1];
      if File(Current, s) in disk && !failing(k)
      then Backward(Renamed(disk, File(Current, s), File(Legacy, s)), moved[..|moved| - 1], failing, k + 1, stranded)
      else Backward(disk, moved[..|moved| - 1], failing, k + 1, stranded + [s])
  }

  datatype Outcome = Outcome(note: Note, disk: Disk, tried: seq<string>, renames: nat)

  function Run(start: Disk, suffixes: seq<string>, failing: nat -> bool, k: nat, directoryMade: bool): Outcome {
    if File(Legacy, "") !in start then Outcome(NothingToDo, start, [], k)
    else if File(Current, "") in start then Outcome(TwoDatabases, start, [], k)
    else if !directoryMade then Outcome(NoDirectory, start, [], k)
    else
      var m := Forward(start, suffixes, failing, k, []);
      if !m.failed then Outcome(Moved, m.disk, m.moved, m.renames)
      else
        var b := Backward(m.disk, m.moved, failing, m.renames, []);
        Outcome(if b.stranded != [] then SplitAcross(b.stranded) else NothingMoved, b.disk, m.moved, b.renames)
  }

  lemma {:induction false} ForwardStep(disk: Disk, suffixes: seq<string>, failing: nat -> bool, k: nat,
      moved: seq<string>)
    requires suffixes != []
    ensures Forward(disk, suffixes, failing, k, moved) ==
      if File(Legacy, suffixes[0]) !in disk then Forward(disk, suffixes[1..], failing, k, moved)
      else if failing(k) then Moves(disk, moved, k + 1, true)
      else Forward(Renamed(disk, File(Legacy, suffixes[0]), File(Current, suffixes[0])), suffixes[1..], failing, k + 1,
                   moved + [suffixes[0]])
  {
    hide Renamed;
  }

  lemma {:induction false} ForwardEnd(disk: Disk, failing: nat -> bool, k: nat, moved: seq<string>)
    ensures Forward(disk, [], failing, k, moved) == Moves(disk, moved, k, false)
  {
  }

  lemma {:induction false} BackwardStep(disk: Disk, moved: seq<string>, failing: nat -> bool, k: nat,
      stranded: seq<string>)
    requires moved != []
    ensures var s := moved[|moved| - 1];
      Backward(disk, moved, failing, k, stranded) ==
      if File(Current, s) in disk && !failing(k)
      then Backward(Renamed(disk, File(Current, s), File(Legacy, s)), moved[..|moved| - 1], failing, k + 1, stranded)
      else Backward(disk, moved[..|moved| - 1], failing, k + 1, stranded + [s])
  {
    hide Renamed;
  }

  lemma {:induction false} BackwardEnd(disk: Disk, failing: nat -> bool, k: nat, stranded: seq<string>)
    ensures Backward(disk, [], failing, k, stranded) == Returns(disk, stranded, k)
  {
  }

  ghost predicate SomeFailure(failing: nat -> bool, k: nat, k': nat) {
    exists j: nat :: k <= j < k' && failing(j)
  }

  /** What the first loop leaves. */
  lemma {:induction false} ForwardFacts(start: Disk, disk: Disk, suffixes: seq<string>, failing: nat -> bool, k: nat,
      moved: seq<string>)
    requires AfterMoves(start, disk, moved, moved) && AllPresent(start, moved) && Distinct(moved)
    ensures var m := Forward(disk, suffixes, failing, k, moved);
      AfterMoves(start, m.disk, m.moved, m.moved) && AllPresent(start, m.moved) && Distinct(m.moved) &&
        m.renames >= k &&
      (forall s :: s in moved ==> s in m.moved) && (forall s :: s in m.moved ==> s in moved || s in suffixes) &&
      (!m.failed ==> forall s :: s in suffixes && File(Legacy, s) in start ==> s in m.moved) &&
      (m.failed ==> SomeFailure(failing, k, m.renames))
    decreases |suffixes|
  {
    hide AfterMoves, Renamed, Distinct;
    if suffixes != [] {
      var s, rest := suffixes[0], suffixes[1..];
      assert suffixes == [s] + rest;
      ForwardStep(disk, suffixes, failing, k, moved);
      hide Forward;
      LegacyAfterMoves(start, disk, moved, s);
      if File(Legacy, s) !in disk {
        ForwardFacts(start, disk, rest, failing, k, moved);
      } else if failing(k) {
      } else {
        MoveOne(start, disk, moved, s);
        OnceMore(moved, s);
        ForwardFacts(start, Renamed(disk, File(Legacy, s), File(Current, s)), rest, failing, k + 1, moved + [s]);
        FailureLater(failing, k, k + 1,
          Forward(Renamed(disk, File(Legacy, s), File(Current, s)), rest, failing, k + 1, moved + [s]).renames);
      }
    }
  }

  lemma {:induction false} FailureLater(failing: nat -> bool, k: nat, k1: nat, k2: nat)
    requires k <= k1
    ensures SomeFailure(failing, k1, k2) ==> SomeFailure(failing, k, k2)
  {
  }

  /** What the rollback leaves: `left` are still to be renamed back. */
  lemma {:induction false} BackwardFacts(start: Disk, disk: Disk, tried: seq<string>, left: seq<string>,
      failing: nat -> bool, k: nat, stranded: seq<string>)
    requires AfterMoves(start, disk, tried, left + stranded) && AllPresent(start, tried) && Distinct(left)
    requires (forall s :: s in left ==> s in tried && s !in stranded) && (forall s :: s in stranded ==> s in tried)
    ensures var b := Backward(disk, left, failing, k, stranded);
      AfterMoves(start, b.disk, tried, b.stranded) && b.renames >= k && (forall s :: s in b.stranded ==> s in tried) &&
      ((forall j: nat :: j >= k ==> !failing(j)) ==> b.stranded == stranded)
    decreases |left|
  {
    hide AfterMoves, Renamed;
    if left == [] {
      assert left + stranded == stranded;
    } else {
      var n := |left| - 1;
      var s, rest := left[n], left[..n];
      assert left == rest + [s];
      BackwardStep(disk, left, failing, k, stranded);
      hide Backward;
      LastOnce(left);
      StillAway(start, disk, tried, left + stranded, s);
      if File(Current, s) in disk && !failing(k) {
        MoveBackOne(start, disk, tried, left + stranded, rest + stranded, s);
        hide Distinct;
        BackwardFacts(start, Renamed(disk, File(Current, s), File(Legacy, s)), tried, rest, failing, k + 1, stranded);
      } else {
        SameAway(start, disk, tried, left + stranded, rest + (stranded + [s]));
        hide Distinct;
        BackwardFacts(start, disk, tried, rest, failing, k + 1, stranded + [s]);
      }
    }
  }

  lemma {:induction false} LastOnce(left: seq<string>)
    requires Distinct(left) && left != []
    ensures Distinct(left[..|left| - 1]) && left[|left| - 1] !in left[..|left| - 1]
  {
  }

  /** What each note of a run means. */
  lemma {:induction false} RunFacts(start: Disk, suffixes: seq<string>, failing: nat -> bool, k: nat,
      directoryMade: bool)
    ensures var o := Run(start, suffixes, failing, k, directoryMade);
      && (o.note == NothingToDo <==> File(Legacy, "") !in start)
      && (o.note == TwoDatabases <==> File(Legacy, "") in start && File(Current, "") in start)
      && (o.note == NoDirectory <==> File(Legacy, "") in start && File(Current, "") !in start && !directoryMade)
      && (o.note.NothingMoved? || o.note.SplitAcross? ==> exists j: nat :: k <= j < o.renames && failing(j))
      && (o.note.NothingToDo? || o.note.TwoDatabases? || o.note.NoDirectory? ==> o.disk == start)
      && (o.note == Moved ==> forall s :: s in o.tried <==> s in suffixes && File(Legacy, s) in start)
      && (o.note == Moved ==> AfterMoves(start, o.disk, o.tried, o.tried))
      && (o.note == NothingMoved ==> AfterMoves(start, o.disk, o.tried, []))
      && (o.note.SplitAcross? ==> AfterMoves(start, o.disk, o.tried, o.note.stranded))
      && (o.note.SplitAcross? ==> o.note.stranded != [] && forall s :: s in o.note.stranded ==> s in o.tried)
      && (forall s :: s in o.tried ==> s in suffixes && File(Legacy, s) in start)
  {
    hide AfterMoves, Forward, Backward;
    NoMoves(start);
    NoneTwice();
    ForwardFacts(start, start, suffixes, failing, k, []);
    var m := Forward(start, suffixes, failing, k, []);
    if m.failed {
      assert m.moved + [] == m.moved;
      BackwardFacts(start, m.disk, m.moved, m.moved, failing, m.renames, []);
    }
  }

  function Renamed(disk: Disk, source: File, destination: File): Disk
    requires source in disk
  {
    disk[destination := disk[source]] - {source}
  }

  ghost predicate AllPresent(disk: Disk, suffixes: seq<string>) {
    forall s :: s in suffixes ==> File(Legacy, s) in disk
  }

  function Look(disk: Disk, f: File): Option<string> {
    if f in disk then Some(disk[f]) else None
  }

  /** How the two files of one suffix stand: `moved` says its first rename was made, `away` that it was
      not undone. */
  ghost predicate Stands(start: Disk, disk: Disk, s: string, moved: bool, away: bool) {
    if !moved then
      Look(disk, File(Legacy, s)) == Look(start, File(Legacy, s)) &&
        Look(disk, File(Current, s)) == Look(start, File(Current, s))
    else if away then
      Look(disk, File(Legacy, s)) == None && Look(disk, File(Current, s)) == Look(start, File(Legacy, s))
    else
      Look(disk, File(Legacy, s)) == Look(start, File(Legacy, s)) && Look(disk, File(Current, s)) == None
  }

  /** The files with the tried suffixes were moved, and those not in `away` moved back; nothing else changed. */
  ghost predicate AfterMoves(start: Disk, disk: Disk, tried: seq<string>, away: seq<string>) {
    forall s :: Stands(start, disk, s, s in tried, s in away)
  }

  lemma {:induction false} NoMoves(start: Disk)
    ensures AfterMoves(start, start, [], [])
  {
  }

  /** A file still to be moved is where it was, and only such a file is. */
  lemma {:induction false} LegacyAfterMoves(start: Disk, disk: Disk, tried: seq<string>, s: string)
    requires AfterMoves(start, disk, tried, tried)
    ensures File(Legacy, s) in disk <==> File(Legacy, s) in start && s !in tried
  {
    assert Stands(start, disk, s, s in tried, s in tried);
  }

  lemma {:induction false} RenameStands(start: Disk, disk: Disk, s: string, other: string, moved: bool, away: bool)
    requires Stands(start, disk, other, moved, away)
    ensures File(Legacy, s) in disk ==>
      (other != s ==> Stands(start, Renamed(disk, File(Legacy, s), File(Current, s)), other, moved, away)) &&
      (other == s && !moved ==> Stands(start, Renamed(disk, File(Legacy, s), File(Current, s)), s, true, true))
    ensures File(Current, s) in disk ==>
      (other != s ==> Stands(start, Renamed(disk, File(Current, s), File(Legacy, s)), other, moved, away)) &&
      (other == s && moved && away ==> Stands(start, Renamed(disk, File(Current, s), File(Legacy, s)), s, true, false))
  {
  }

  lemma {:induction false} MoveOne(start: Disk, disk: Disk, tried: seq<string>, s: string)
    requires AfterMoves(start, disk, tried, tried) && File(Legacy, s) in disk
    ensures s !in tried
    ensures AfterMoves(start, Renamed(disk, File(Legacy, s), File(Current, s)), tried + [s], tried + [s])
  {
    hide Stands, Renamed;
    LegacyAfterMoves(start, disk, tried, s);
    forall other ensures Stands(start, Renamed(disk, File(Legacy, s), File(Current, s)), other, other in tried + [s],
      other in tried + [s]) {
      RenameStands(start, disk, s, other, other in tried, other in tried);
    }
  }

  lemma {:induction false} StillAway(start: Disk, disk: Disk, tried: seq<string>, away: seq<string>, s: string)
    requires AfterMoves(start, disk, tried, away) && s in tried && s in away && AllPresent(start, tried)
    ensures File(Current, s) in disk
  {
    assert Stands(start, disk, s, s in tried, s in away);
  }

  lemma {:induction false} MoveBackOne(start: Disk, disk: Disk, tried: seq<string>, away: seq<string>,
      left: seq<string>, s: string)
    requires AfterMoves(start, disk, tried, away) && s in tried && s in away && File(Current, s) in disk
    requires forall r :: r in left <==> r in away && r != s
    ensures AfterMoves(start, Renamed(disk, File(Current, s), File(Legacy, s)), tried, left)
  {
    hide Stands, Renamed;
    forall other ensures Stands(start, Renamed(disk, File(Current, s), File(Legacy, s)), other, other in tried,
      other in left) {
      RenameStands(start, disk, s, other, other in tried, other in away);
    }
  }

  lemma {:induction false} SameAway(start: Disk, disk: Disk, tried: seq<string>, away: seq<string>, same: seq<string>)
    requires AfterMoves(start, disk, tried, away) && forall r :: r in away <==> r in same
    ensures AfterMoves(start, disk, tried, same)
  {
    hide Stands;
    forall s ensures Stands(start, disk, s, s in tried, s in same) {
      assert Stands(start, disk, s, s in tried, s in away);
    }
  }

  // ----- what the notes mean -----

  /** No sidecar waits at the destination for a file that is to be moved. */
  ghost predicate DestinationFree(start: Disk, suffixes: seq<string>) {
    forall s :: s in suffixes && File(Legacy, s) in start ==> File(Current, s) !in start
  }

  /** With the destination free, whatever renames fail, every database file is on exactly one side, with
      its content: at the new place exactly when all were moved, or when it is reported as stranded. */
  lemma {:induction false} ExactlyOnePlace(start: Disk, suffixes: seq<string>, failing: nat -> bool, k: nat,
      directoryMade: bool, s: string)
    requires DestinationFree(start, suffixes) && s in suffixes && File(Legacy, s) in start
    ensures var o := Run(start, suffixes, failing, k, directoryMade); var content := start[File(Legacy, s)];
      if o.note == Moved || (o.note.SplitAcross? && s in o.note.stranded)
      then Look(o.disk, File(Current, s)) == Some(content) && Look(o.disk, File(Legacy, s)) == None
      else Look(o.disk, File(Legacy, s)) == Some(content) && Look(o.disk, File(Current, s)) == None
  {
    hide Run, AfterMoves;
    RunFacts(start, suffixes, failing, k, directoryMade);
    var o := Run(start, suffixes, failing, k, directoryMade);
    match o.note
    case Moved => OneSide(start, o.disk, o.tried, o.tried, s);
    case NothingMoved => OneSide(start, o.disk, o.tried, [], s);
    case SplitAcross(stranded) => OneSide(start, o.disk, o.tried, stranded, s);
    case _ =>
  }

  lemma {:induction false} OneSide(start: Disk, disk: Disk, tried: seq<string>, away: seq<string>, s: string)
    requires AfterMoves(start, disk, tried, away)
    requires File(Legacy, s) in start && File(Current, s) !in start
    ensures var content := start[File(Legacy, s)];
      if s in tried && s in away
      then Look(disk, File(Current, s)) == Some(content) && Look(disk, File(Legacy, s)) == None
      else Look(disk, File(Legacy, s)) == Some(content) && Look(disk, File(Current, s)) == None
  {
    assert Stands(start, disk, s, s in tried, s in away);
  }

  /** "Nothing was moved" means the disk is as it was exactly when no file whose first rename succeeded
      had displaced one at the destination. */
  lemma {:induction false} NothingMovedIff(start: Disk, disk: Disk, tried: seq<string>)
    requires AfterMoves(start, disk, tried, [])
    ensures disk == start <==> forall s :: s in tried ==> File(Current, s) !in start
  {
    hide Stands;
    forall s ensures Stands(start, disk, s, s in tried, false) {
      assert Stands(start, disk, s, s in tried, s in []);
    }
    if forall s :: s in tried ==> File(Current, s) !in start {
      forall f: File ensures Look(disk, f) == Look(start, f) {
        BackInPlace(start, disk, f, f.suffix in tried);
      }
      SameLooks(start, disk);
    }
    if disk == start {
      forall s | s in tried ensures File(Current, s) !in start {
        NoneAtDestination(start, disk, s);
      }
    }
  }

  lemma {:induction false} BackInPlace(start: Disk, disk: Disk, f: File, moved: bool)
    requires Stands(start, disk, f.suffix, moved, false) && (moved ==> File(Current, f.suffix) !in start)
    ensures Look(disk, f) == Look(start, f)
  {
    assert f == File(f.side, f.suffix);
    assert f.side == Legacy || f.side == Current;
  }

  lemma {:induction false} NoneAtDestination(start: Disk, disk: Disk, s: string)
    requires Stands(start, disk, s, true, false)
    ensures File(Current, s) !in disk
  {
  }

  lemma {:induction false} SameLooks(a: Disk, b: Disk)
    requires forall f :: Look(b, f) == Look(a, f)
    ensures a == b
  {
    assert forall f :: f in a ==> Look(b, f) == Look(a, f) == Some(a[f]);
    assert forall f :: f in b ==> Look(b, f) == Look(a, f) == Some(b[f]);
  }

  lemma {:induction false} NoneTwice()
    ensures Distinct<string>([])
  {
  }

  lemma {:induction false} OnceMore(names: seq<string>, s: string)
    requires Distinct(names) && s !in names
    ensures Distinct(names + [s])
  {
  }

  // ----- "nothing was moved", over every pattern of failures -----

  /** The suffixes that have a file to move, in order. */
  function Present(start: Disk, suffixes: seq<string>): seq<string> {
    if suffixes == [] then []
    else (if File(Legacy, suffixes[0]) in start then [suffixes[0]] else []) + Present(start, suffixes[1..])
  }

  lemma {:induction false} DistinctTail(s: seq<string>)
    requires Distinct(s) && s != []
    ensures Distinct(s[1..]) && s[0] !in s[1..]
  {
  }

  /** The first loop moves the first so many files, up to the first failure. */
  lemma {:induction false} ForwardIsPrefix(start: Disk, disk: Disk, suffixes: seq<string>, failing: nat -> bool, k: nat,
      moved: seq<string>)
      returns (j: nat)
    requires AfterMoves(start, disk, moved, moved) && Distinct(suffixes) && forall s :: s in suffixes ==> s !in moved
    ensures var m, ps := Forward(disk, suffixes, failing, k, moved), Present(start, suffixes);
      j <= |ps| && m.moved == moved + ps[..j] && (m.failed <==> j < |ps|) && (m.failed ==> failing(k + j)) &&
      m.renames == k + j + (if m.failed then 1 else 0)
    ensures forall n: nat :: k <= n < k + j ==> !failing(n)
    decreases |suffixes|
  {
    hide AfterMoves, Renamed, Distinct;
    if suffixes == [] {
      j := 0;
      assert moved + [] == moved;
    } else {
      var s, rest := suffixes[0], suffixes[1..];
      assert suffixes == [s] + rest;
      DistinctTail(suffixes);
      ForwardStep(disk, suffixes, failing, k, moved);
      PresentStep(start, suffixes);
      hide Forward, Present;
      LegacyAfterMoves(start, disk, moved, s);
      var ps := Present(start, rest);
      if File(Legacy, s) !in disk {
        j := ForwardIsPrefix(start, disk, rest, failing, k, moved);
        assert [] + ps == ps;
      } else if failing(k) {
        j := 0;
        assert moved + ([s] + ps)[..0] == moved;
      } else {
        MoveOne(start, disk, moved, s);
        j := ForwardIsPrefix(start, Renamed(disk, File(Legacy, s), File(Current, s)), rest, failing, k + 1,
          moved + [s]);
        assert moved + [s] + ps[..j] == moved + ([s] + ps)[..j + 1];
        j := j + 1;
      }
    }
  }

  lemma {:induction false} PresentStep(start: Disk, suffixes: seq<string>)
    requires suffixes != []
    ensures Present(start, suffixes) ==
      (if File(Legacy, suffixes[0]) in start then [suffixes[0]] else []) + Present(start, suffixes[1..])
  {
  }

  /** A run that starts at all. */
  ghost predicate Starts(start: Disk) {
    File(Legacy, "") in start && File(Current, "") !in start
  }

  /** The rollback tries every file that was moved, last first: exactly those stay behind whose rename back fails. */
  lemma {:induction false} BackwardIs(start: Disk, disk: Disk, tried: seq<string>, left: seq<string>,
      failing: nat -> bool, k: nat, stranded: seq<string>, i: nat)
    requires AfterMoves(start, disk, tried, left + stranded) && AllPresent(start, tried) && Distinct(left)
    requires (forall s :: s in left ==> s in tried && s !in stranded) && (forall s :: s in stranded ==> s in tried)
    ensures StaysBehind(left, failing, k, stranded, Backward(disk, left, failing, k, stranded), i)
    decreases |left|
  {
    hide AfterMoves, Renamed, AllPresent, StaysBehind;
    if left == [] {
      BackwardEnd(disk, failing, k, stranded);
      NoneBehind(failing, k, stranded, disk, i);
    } else {
      var n := |left| - 1;
      var s, rest := left[n], left[..n];
      assert left == rest + [s];
      BackwardStep(disk, left, failing, k, stranded);
      hide Backward;
      LastOnce(left);
      StillAway(start, disk, tried, left + stranded, s);
      BehindStep(left, failing, k, stranded, i);
      if File(Current, s) in disk && !failing(k) {
        MoveBackOne(start, disk, tried, left + stranded, rest + stranded, s);
        hide Distinct;
        BackwardIs(start, Renamed(disk, File(Current, s), File(Legacy, s)), tried, rest, failing, k + 1, stranded, i);
      } else {
        SameAway(start, disk, tried, left + stranded, rest + (stranded + [s]));
        hide Distinct;
        BackwardIs(start, disk, tried, rest, failing, k + 1, stranded + [s], i);
      }
    }
  }

  /** What a rollback leaves of the files `left`: all are tried, and the i-th stays behind when its rename fails. */
  ghost predicate StaysBehind(left: seq<string>, failing: nat -> bool, k: nat, stranded: seq<string>, b: Returns,
      i: nat)
  {
    b.renames == k + |left| && (forall s :: s in stranded ==> s in b.stranded) &&
    (forall s :: s in b.stranded ==> s in stranded || s in left) &&
    (i < |left| ==> (left[i] in b.stranded <==> failing(k + |left| - 1 - i)))
  }

  lemma {:induction false} NoneBehind(failing: nat -> bool, k: nat, stranded: seq<string>, disk: Disk, i: nat)
    ensures StaysBehind([], failing, k, stranded, Returns(disk, stranded, k), i)
  {
  }

  lemma {:induction false} BehindStep(left: seq<string>, failing: nat -> bool, k: nat, stranded: seq<string>, i: nat)
    requires left != [] && Distinct(left) && forall s :: s in left ==> s !in stranded
    ensures var n := |left| - 1; var s, rest := left[n], left[..n];
      forall b: Returns ::
        (!failing(k) && StaysBehind(rest, failing, k + 1, stranded, b, i) ==>
           StaysBehind(left, failing, k, stranded, b, i)) &&
        (failing(k) && StaysBehind(rest, failing, k + 1, stranded + [s], b, i) ==>
           StaysBehind(left, failing, k, stranded, b, i))
  {
    LastOnce(left);
    var n := |left| - 1;
    assert left == left[..n] + [left[n]];
    assert forall j :: 0 <= j < n ==> left[..n][j] == left[j];
  }

  /** Does the rename back fail of the file that was moved i-th, when `j` were moved from rename `k` on, the one
      after them failed, and the last one is tried first? */
  ghost predicate BackFails(failing: nat -> bool, k: nat, j: nat, i: nat)
    requires i < j
  {
    failing(k + 2 * j - i)
  }

  lemma {:induction false} RollbackIs(start: Disk, disk: Disk, moved: seq<string>, failing: nat -> bool, k: nat)
    requires AfterMoves(start, disk, moved, moved) && AllPresent(start, moved) && Distinct(moved)
    ensures var j := |moved|; var b := Backward(disk, moved, failing, k + j + 1, []);
      && (forall i: nat :: i < j ==> (moved[i] in b.stranded <==> BackFails(failing, k, j, i)))
      && (b.stranded == [] <==> forall i: nat :: i < j ==> !BackFails(failing, k, j, i))
  {
    hide AfterMoves, Backward, Distinct, AllPresent;
    assert moved + [] == moved;
    var j := |moved|;
    var b := Backward(disk, moved, failing, k + j + 1, []);
    forall i: nat | i < j ensures moved[i] in b.stranded <==> BackFails(failing, k, j, i) {
      BackwardIs(start, disk, moved, moved, failing, k + j + 1, [], i);
      assert k + j + 1 + j - 1 - i == k + 2 * j - i;
    }
    BackwardIs(start, disk, moved, moved, failing, k + j + 1, [], 0);
    if b.stranded != [] {
      assert b.stranded[0] in b.stranded && b.stranded[0] in moved;
      var i :| 0 <= i < j && moved[i] == b.stranded[0];
    }
  }

  /** Which note a run that starts gives, and what it lists, from the renames that fail alone. */
  lemma {:induction false} WhichNote(start: Disk, suffixes: seq<string>, failing: nat -> bool, k: nat)
    returns (j: nat)
    requires Starts(start) && Distinct(suffixes)
    ensures var ps, o := Present(start, suffixes), Run(start, suffixes, failing, k, true);
      && j <= |ps| && o.tried == ps[..j] && (forall n: nat :: k <= n < k + j ==> !failing(n))
      && (j < |ps| ==> failing(k + j))
      && (o.note == Moved <==> j == |ps|)
      && (o.note == NothingMoved <==> j < |ps| && forall i: nat :: i < j ==> !BackFails(failing, k, j, i))
      && (o.note.SplitAcross? ==>
            forall i: nat :: i < j ==> (ps[i] in o.note.stranded <==> BackFails(failing, k, j, i)))
  {
    hide AfterMoves, Forward, Backward, Present, Distinct, BackFails, AllPresent;
    NoMoves(start);
    NoneTwice();
    var ps := Present(start, suffixes);
    j := ForwardIsPrefix(start, start, suffixes, failing, k, []);
    assert [] + ps[..j] == ps[..j];
    assert AllPresent(start, []) by { NonePresent(start); }
    ForwardFacts(start, start, suffixes, failing, k, []);
    var m := Forward(start, suffixes, failing, k, []);
    if m.failed {
      RollbackIs(start, m.disk, m.moved, failing, k);
      assert forall i: nat :: i < j ==> m.moved[i] == ps[i];
    }
  }

  lemma {:induction false} NonePresent(start: Disk)
    ensures AllPresent(start, [])
  {
  }

  /** A run that reports that nothing was moved had moved some but not all of the files. */
  lemma {:induction false} TriedPrefix(start: Disk, suffixes: seq<string>, failing: nat -> bool, k: nat)
    returns (j: nat)
    requires Starts(start) && Distinct(suffixes) && Run(start, suffixes, failing, k, true).note == NothingMoved
    ensures j < |Present(start, suffixes)| &&
      Run(start, suffixes, failing, k, true).tried == Present(start, suffixes)[..j]
  {
    hide AfterMoves, Forward, Backward, Present, Distinct;
    NoMoves(start);
    j := ForwardIsPrefix(start, start, suffixes, failing, k, []);
    assert [] + Present(start, suffixes)[..j] == Present(start, suffixes)[..j];
  }

  /** When only the rename of the last file fails, all the others are moved and moved back. */
  lemma {:induction false} LastFails(start: Disk, suffixes: seq<string>, failing: nat -> bool, k: nat)
    requires Starts(start) && Distinct(suffixes) && Present(start, suffixes) != []
    requires forall i: nat :: failing(i) <==> i == k + |Present(start, suffixes)| - 1
    ensures var o, ps := Run(start, suffixes, failing, k, true), Present(start, suffixes);
      o.note == NothingMoved && o.tried == ps[..|ps| - 1] && AfterMoves(start, o.disk, o.tried, [])
  {
    hide AfterMoves, Forward, Backward, Present, Distinct;
    NoMoves(start);
    var ps := Present(start, suffixes);
    var j := ForwardIsPrefix(start, start, suffixes, failing, k, []);
    assert [] + ps[..j] == ps[..j];
    var last: nat := |ps| - 1;
    assert failing(k + last);
    assert j == last;
    var m := Forward(start, suffixes, failing, k, []);
    NoneTwice();
    ForwardFacts(start, start, suffixes, failing, k, []);
    assert m.moved + [] == m.moved;
    BackwardFacts(start, m.disk, m.moved, m.moved, failing, m.renames, []);
  }

  /** Over all patterns of failing renames, a run that reports that nothing was moved leaves the disk as it
      was if and only if no file but the last to be moved has one waiting at its destination. */
  lemma {:induction false} NothingMovedHolds(start: Disk, suffixes: seq<string>, k: nat)
    requires Starts(start) && Distinct(suffixes)
    ensures (forall failing: nat -> bool :: Run(start, suffixes, failing, k, true).note == NothingMoved ==>
               Run(start, suffixes, failing, k, true).disk == start)
      <==> forall i :: 0 <= i < |Present(start, suffixes)| - 1 ==> File(Current, Present(start, suffixes)[i]) !in start
  {
    hide AfterMoves, Run, Present, Distinct, Starts;
    var ps := Present(start, suffixes);
    if forall i :: 0 <= i < |ps| - 1 ==> File(Current, ps[i]) !in start {
      forall failing: nat -> bool | Run(start, suffixes, failing, k, true).note == NothingMoved
        ensures Run(start, suffixes, failing, k, true).disk == start
      {
        var j := TriedPrefix(start, suffixes, failing, k);
        RunFacts(start, suffixes, failing, k, true);
        NothingMovedIff(start, Run(start, suffixes, failing, k, true).disk, ps[..j]);
      }
    }
    if i :| 0 <= i < |ps| - 1 && File(Current, ps[i]) in start {
      var failing := (n: nat) => n == k + |ps| - 1;
      LastFails(start, suffixes, failing, k);
      var o := Run(start, suffixes, failing, k, true);
      NothingMovedIff(start, o.disk, o.tried);
      assert ps[i] == o.tried[i] && ps[i] in o.tried;
      assert o.note == NothingMoved && o.disk != start;
    }
  }

  /** So for the installer's own files: a write-ahead log left at the destination is lost when moving the
      last file fails, and the note says that nothing was moved. */
  lemma {:induction false} WaitingSidecarIsLost()
    ensures exists start: Disk, failing: nat -> bool ::
      Starts(start) && File(Current, "-wal") in start &&
      Run(start, ["", "-wal", "-shm"], failing, 0, true).note == NothingMoved &&
      File(Current, "-wal") !in Run(start, ["", "-wal", "-shm"], failing, 0, true).disk
  {
    hide AfterMoves, Run;
    var suffixes := ["", "-wal", "-shm"];
    var start := map[File(Legacy, "") := "db", File(Legacy, "-wal") := "log", File(Legacy, "-shm") := "index",
                     File(Current, "-wal") := "other log"];
    var failing := (n: nat) => n == 2;
    InstallerSuffixes(start);
    LastFails(start, suffixes, failing, 0);
    var o := Run(start, suffixes, failing, 0, true);
    assert o.tried[1] == "-wal" && "-wal" in o.tried;
    GoneFromDestination(start, o.disk, o.tried, "-wal");
  }

  lemma {:induction false} GoneFromDestination(start: Disk, disk: Disk, tried: seq<string>, s: string)
    requires AfterMoves(start, disk, tried, []) && s in tried
    ensures File(Current, s) !in disk
  {
    assert Stands(start, disk, s, s in tried, s in []);
  }

  lemma {:induction false} InstallerSuffixes(start: Disk)
    requires File(Legacy, "") in start && File(Legacy, "-wal") in start && File(Legacy, "-shm") in start
    ensures var suffixes := ["", "-wal", "-shm"]; Distinct(suffixes) && Present(start, suffixes) == suffixes
  {
    hide Present;
    var a, b, c := ["", "-wal", "-shm"], ["-wal", "-shm"], ["-shm"];
    assert a[1..] == b && b[1..] == c && c[1..] == [];
    assert "-wal"[1] != "-shm"[1];
    PresentStep(start, a);
    PresentStep(start, b);
    PresentStep(start, c);
    PresentNone(start);
    assert [""] + (["-wal"] + (["-shm"] + [])) == a;
  }

  lemma {:induction false} PresentNone(start: Disk)
    ensures Present(start, []) == []
  {
  }
}
