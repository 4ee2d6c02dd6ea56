// The code index of one project (rust/crates/oga-context/src/index.rs and store.rs):
// a full build, and the incremental reconcile that has to agree with it.
module Reconcile {
  import opened Basics

  type Path = string
  type Contents = string
  type Digest = string

  const MAX_FILE_BYTES: nat := 512 * 1024

  // What a parser answers for a file: its language, line count and symbols.
  datatype Parsed = Parsed(lang: string, lines: nat, symbols: seq<string>)

  datatype Row = Row(digest: Digest, size: nat, mtime: int, ctime: int, parsed: Parsed)

  // A file the walk found, with its bytes when they can be read.
  datatype File = File(path: Path, size: nat, mtime: int, ctime: int, bytes: Option<Contents>)

  datatype Update = Update(path: Path, row: Row)

  datatype Touched = Touched(path: Path, mtime: int, ctime: int)

  // The hash and the language parsers. A parser refuses what is not UTF-8 or no language.
  datatype Tools = Tools(digest: Contents -> Digest, parse: (Path, Contents) -> Option<Parsed>)

  ghost predicate Injective(digest: Contents -> Digest) {
    forall a, b :: digest(a) == digest(b) ==> a == b
  }

  // A walk lists each path once and reports the size of what can be read.
  ghost predicate IsWalk(files: seq<File>) {
    && (forall i, j :: 0 <= i < j < |files| ==> files[i].path != files[j].path)
    && (forall file :: file in files && file.bytes.Some? ==> file.size == |file.bytes.value|)
  }

  // What a file on disk is worth to a full build.
  function Fresh(tools: Tools, file: File): Option<Row> {
    if file.size > MAX_FILE_BYTES || file.bytes.None? then None
    else
      match tools.parse(file.path, file.bytes.value)
      case None => None
      case Some(parsed) => Some(Row(tools.digest(file.bytes.value), file.size, file.mtime, file.ctime, parsed))
  }

  predicate SameStamps(row: Row, file: File) {
    row.size == file.size && row.mtime == file.mtime && row.ctime == file.ctime
  }

  predicate SameContents(tools: Tools, row: Row, file: File) {
    file.size <= MAX_FILE_BYTES && file.bytes.Some? && row.digest == tools.digest(file.bytes.value)
  }

  // What a reconcile makes of a file, given the row the index already holds for it.
  function Settled(tools: Tools, known: Option<Row>, file: File): Option<Row> {
    if known.Some? && SameStamps(known.value, file) then known
    else if known.Some? && SameContents(tools, known.value, file) then
      Some(known.value.(mtime := file.mtime, ctime := file.ctime))
    else if Fresh(tools, file).Some? then Fresh(tools, file)
    else known
  }

  function Held(rows: map<Path, Row>, path: Path): Option<Row> {
    if path in rows then Some(rows[path]) else None
  }

  // --- What the passes of a reconcile come to ---

  // The files parsed again: those read whose contents are not the ones held.
  function UpdatesOf(tools: Tools, known: map<Path, Row>, files: seq<File>): seq<Update> {
    if files == [] then []
    else
      var file := files[|files| - 1];
      UpdatesOf(tools, known, files[..|files| - 1]) +
      if !(file.path in known && SameContents(tools, known[file.path], file)) && Fresh(tools, file).Some?
      then [Update(file.path, Fresh(tools, file).value)] else []
  }

  // The files whose contents are the ones held, with the stamps they now wear.
  function TouchedOf(tools: Tools, known: map<Path, Row>, files: seq<File>): seq<Touched> {
    if files == [] then []
    else
      var file := files[|files| - 1];
      TouchedOf(tools, known, files[..|files| - 1]) +
      if file.path in known && SameContents(tools, known[file.path], file)
      then [Touched(file.path, file.mtime, file.ctime)] else []
  }

  function Changed(known: map<Path, Row>, files: seq<File>): seq<File> {
    if files == [] then []
    else
      var file := files[|files| - 1];
      Changed(known, files[..|files| - 1]) +
      if file.path in known && SameStamps(known[file.path], file) then [] else [file]
  }

  // Updates outside `always` are kept while their symbols fit what is left of the budget.
  function Retained(updates: seq<Update>, always: set<Path>, budget: nat): seq<Update> {
    if updates == [] then []
    else
      var symbols := |updates[0].row.parsed.symbols|;
      if updates[0].path in always then [updates[0]] + Retained(updates[1..], always, budget)
      else if symbols <= budget then [updates[0]] + Retained(updates[1..], always, budget - symbols)
      else Retained(updates[1..], always, budget)
  }

  function Renamed(rows: map<Path, Row>, from: Path, to: Path): map<Path, Row> {
    var cleared := rows - {to};
    if from in cleared then (cleared - {from})[to := cleared[from]] else cleared
  }

  function AllRenamed(rows: map<Path, Row>, moves: seq<(Path, Path)>): map<Path, Row> {
    if moves == [] then rows
    else
      var last := moves[|moves| - 1];
      Renamed(AllRenamed(rows, moves[..|moves| - 1]), last.0, last.1)
  }

  function Written(rows: map<Path, Row>, updates: seq<Update>): map<Path, Row> {
    if updates == [] then rows
    else
      var last := updates[|updates| - 1];
      Written(rows, updates[..|updates| - 1])[last.path := last.row]
  }

  function Stamped(rows: map<Path, Row>, touched: seq<Touched>): map<Path, Row> {
    if touched == [] then rows
    else
      var last := touched[|touched| - 1];
      var before := Stamped(rows, touched[..|touched| - 1]);
      if last.path in before
      then before[last.path := before[last.path].(mtime := last.mtime, ctime := last.ctime)] else before
  }

  function TotalSymbols(updates: seq<Update>): nat {
    if updates == [] then 0
    else TotalSymbols(updates[..|updates| - 1]) + |updates[|updates| - 1].row.parsed.symbols|
  }

  // --- Moves ---

  ghost predicate DistinctPaths(updates: seq<Update>) {
    forall i, j :: 0 <= i < j < |updates| ==> updates[i].path != updates[j].path
  }

  // `from` is the only vanished file with its digest and `to` the only updated one.
  ghost predicate IsMove(known: map<Path, Row>, updates: seq<Update>, vanished: seq<Path>, move: (Path, Path)) {
    && move.0 in vanished && move.0 in known
    && (forall other :: other in vanished && other in known && known[other].digest == known[move.0].digest ==>
          other == move.0)
    && (exists update :: update in updates && update.path == move.1 && update.row.digest == known[move.0].digest)
    && (forall update :: update in updates && update.row.digest == known[move.0].digest ==> update.path == move.1)
  }

  // Pairing by digest is injective both ways.
  lemma {:induction false} MovesPairOff(known: map<Path, Row>, updates: seq<Update>, vanished: seq<Path>,
          a: (Path, Path), b: (Path, Path))
    requires IsMove(known, updates, vanished, a) && IsMove(known, updates, vanished, b) && DistinctPaths(updates)
    ensures a.0 == b.0 <==> a.1 == b.1
  {
  }

  // The paths filed under each digest.
  function OldPaths(known: map<Path, Row>, vanished: seq<Path>, digest: Digest): seq<Path> {
    if vanished == [] then []
    else
      var last := vanished[|vanished| - 1];
      OldPaths(known, vanished[..|vanished| - 1], digest) +
      if last in known && known[last].digest == digest then [last] else []
  }

  function NewPaths(updates: seq<Update>, digest: Digest): seq<Path> {
    if updates == [] then []
    else
      var last := updates[|updates| - 1];
      NewPaths(updates[..|updates| - 1], digest) + if last.row.digest == digest then [last.path] else []
  }

  ghost predicate Filed(buckets: map<Digest, seq<Path>>, under: Digest -> seq<Path>) {
    forall digest :: if digest in buckets then buckets[digest] == under(digest) && under(digest) != []
                     else under(digest) == []
  }

  lemma {:induction false} OldPathsAre(known: map<Path, Row>, vanished: seq<Path>, digest: Digest)
    ensures forall path :: path in OldPaths(known, vanished, digest) <==>
              path in vanished && path in known && known[path].digest == digest
    ensures (forall i, j :: 0 <= i < j < |vanished| ==> vanished[i] != vanished[j]) ==>
              forall i, j :: 0 <= i < j < |OldPaths(known, vanished, digest)| ==>
                OldPaths(known, vanished, digest)[i] != OldPaths(known, vanished, digest)[j]
  {
    if vanished != [] {
      OldPathsAre(known, vanished[..|vanished| - 1], digest);
      assert vanished == vanished[..|vanished| - 1] + [vanished[|vanished| - 1]];
    }
  }

  lemma {:induction false} NewPathsAre(updates: seq<Update>, digest: Digest)
    ensures forall path :: path in NewPaths(updates, digest) <==>
              exists update :: update in updates && update.path == path && update.row.digest == digest
    ensures DistinctPaths(updates) ==>
              forall i, j :: 0 <= i < j < |NewPaths(updates, digest)| ==>
                NewPaths(updates, digest)[i] != NewPaths(updates, digest)[j]
  {
    if updates != [] {
      var last := updates[|updates| - 1];
      NewPathsAre(updates[..|updates| - 1], digest);
      var earlier := NewPaths(updates[..|updates| - 1], digest);
      forall path | path in earlier
        ensures DistinctPaths(updates) ==> path != last.path
      {
        var update :| update in updates[..|updates| - 1] && update.path == path && update.row.digest == digest;
        var k :| 0 <= k < |updates| - 1 && updates[k] == update;
      }
      assert forall i :: 0 <= i < |earlier| ==> earlier[i] in earlier;
      assert NewPaths(updates, digest) == earlier + if last.row.digest == digest then [last.path] else [];
      assert updates == updates[..|updates| - 1] + [last];
      assert last in updates;
    }
  }

  method FileOld(known: map<Path, Row>, vanished: seq<Path>) returns (buckets: map<Digest, seq<Path>>)
    ensures Filed(buckets, digest => OldPaths(known, vanished, digest))
  {
    buckets := map[];
    for i := 0 to |vanished|
      invariant Filed(buckets, digest => OldPaths(known, vanished[..i], digest))
    {
      assert vanished[..i + 1][..i] == vanished[..i];
      if vanished[i] in known {
        var digest := known[vanished[i]].digest;
        buckets := buckets[digest := (if digest in buckets then buckets[digest] else []) + [vanished[i]]];
      }
    }
    assert vanished[..|vanished|] == vanished;
  }

  method FileNew(updates: seq<Update>) returns (buckets: map<Digest, seq<Path>>)
    ensures Filed(buckets, digest => NewPaths(updates, digest))
  {
    buckets := map[];
    for i := 0 to |updates|
      invariant Filed(buckets, digest => NewPaths(updates[..i], digest))
    {
      assert updates[..i + 1][..i] == updates[..i];
      var digest := updates[i].row.digest;
      buckets := buckets[digest := (if digest in buckets then buckets[digest] else []) + [updates[i].path]];
    }
    assert updates[..|updates|] == updates;
  }

  // Pairs a vanished file with an updated one when each is the only one of its digest.
  method DetectMoves(known: map<Path, Row>, updates: seq<Update>, vanished: seq<Path>)
    returns (moves: seq<(Path, Path)>)
    requires DistinctPaths(updates)
    requires forall i, j :: 0 <= i < j < |vanished| ==> vanished[i] != vanished[j]
    ensures forall move :: move in moves <==> IsMove(known, updates, vanished, move)
  {
    var before := FileOld(known, vanished);
    var after := FileNew(updates);
    moves := [];
    var left := before.Keys;
    while left != {}
      invariant left <= before.Keys
      invariant forall move :: move in moves <==>
                  exists digest :: digest !in left && Pairs(before, after, digest, move)
    {
      var digest :| digest in left;
      left := left - {digest};
      if digest in after && |before[digest]| == 1 && |after[digest]| == 1 {
        assert Pairs(before, after, digest, (before[digest][0], after[digest][0]));
        moves := moves + [(before[digest][0], after[digest][0])];
      }
    }
    forall move: (Path, Path)
      ensures move in moves <==> IsMove(known, updates, vanished, move)
    {
      PairsAreMoves(known, updates, vanished, before, after, move);
    }
  }

  ghost predicate Pairs(old_: map<Digest, seq<Path>>, new_: map<Digest, seq<Path>>, digest: Digest,
          move: (Path, Path)) {
    digest in old_ && digest in new_ && old_[digest] == [move.0] && new_[digest] == [move.1]
  }

  lemma {:induction false} PairsAreMoves(
    known: map<Path, Row>, updates: seq<Update>, vanished: seq<Path>,
    old_: map<Digest, seq<Path>>, new_: map<Digest, seq<Path>>, move: (Path, Path))
    requires DistinctPaths(updates)
    requires forall i, j :: 0 <= i < j < |vanished| ==> vanished[i] != vanished[j]
    requires Filed(old_, digest => OldPaths(known, vanished, digest))
    requires Filed(new_, digest => NewPaths(updates, digest))
    ensures IsMove(known, updates, vanished, move) <==> exists digest :: Pairs(old_, new_, digest, move)
  {
    if IsMove(known, updates, vanished, move) {
      var digest := known[move.0].digest;
      OldPathsAre(known, vanished, digest);
      NewPathsAre(updates, digest);
      OnlyOne(OldPaths(known, vanished, digest), move.0);
      OnlyOne(NewPaths(updates, digest), move.1);
      assert Pairs(old_, new_, digest, move);
    }
    if digest :| Pairs(old_, new_, digest, move) {
      OldPathsAre(known, vanished, digest);
      NewPathsAre(updates, digest);
      assert move.0 in OldPaths(known, vanished, digest) && move.1 in NewPaths(updates, digest);
      forall update | update in updates && update.row.digest == digest
        ensures update.path == move.1
      {
        assert update.path in NewPaths(updates, digest);
      }
      forall other | other in vanished && other in known && known[other].digest == digest
        ensures other == move.0
      {
        assert other in OldPaths(known, vanished, digest);
      }
    }
  }

  lemma {:induction false} OnlyOne(paths: seq<Path>, path: Path)
    requires path in paths && forall other :: other in paths ==> other == path
    requires forall i, j :: 0 <= i < j < |paths| ==> paths[i] != paths[j]
    ensures paths == [path]
  {
    assert paths[0] in paths && paths[|paths| - 1] in paths;
    assert paths[0] == paths[|paths| - 1];
  }

  // --- What each pass does to one path ---

  lemma {:induction false} UpdatesAre(tools: Tools, known: map<Path, Row>, files: seq<File>)
    requires IsWalk(files)
    ensures DistinctPaths(UpdatesOf(tools, known, files))
    ensures forall update :: update in UpdatesOf(tools, known, files) <==>
              exists file :: file in files && file.path == update.path && Reparsed(tools, known, file) &&
                             Fresh(tools, file) == Some(update.row)
  {
    if files != [] {
      var init, last := files[..|files| - 1], files[|files| - 1];
      assert forall file :: file in files <==> file in init || file == last;
      WalkPrefix(files, |files| - 1);
      UpdatesAre(tools, known, init);
      var updates := UpdatesOf(tools, known, init);
      forall k | 0 <= k < |updates|
        ensures updates[k].path != last.path
      {
        assert updates[k] in updates;
        var file :| file in init && file.path == updates[k].path;
        var i :| 0 <= i < |files| - 1 && files[i] == file;
      }
    }
  }

  predicate Reparsed(tools: Tools, known: map<Path, Row>, file: File) {
    !(file.path in known && SameContents(tools, known[file.path], file))
  }

  lemma {:induction false} WalkPrefix(files: seq<File>, k: nat)
    requires IsWalk(files) && k <= |files|
    ensures IsWalk(files[..k])
  {
  }

  lemma {:induction false} TouchedAre(tools: Tools, known: map<Path, Row>, files: seq<File>)
    ensures forall t :: t in TouchedOf(tools, known, files) <==>
              exists file :: file in files && !Reparsed(tools, known, file) &&
                             t == Touched(file.path, file.mtime, file.ctime)
  {
    if files != [] {
      var init, last := files[..|files| - 1], files[|files| - 1];
      assert forall file :: file in files <==> file in init || file == last;
      TouchedAre(tools, known, init);
    }
  }

  lemma {:induction false} ChangedAre(known: map<Path, Row>, files: seq<File>)
    requires IsWalk(files)
    ensures forall file :: file in Changed(known, files) <==>
              file in files && !(file.path in known && SameStamps(known[file.path], file))
    ensures IsWalk(Changed(known, files))
  {
    if files != [] {
      var init, last := files[..|files| - 1], files[|files| - 1];
      assert forall file :: file in files <==> file in init || file == last;
      WalkPrefix(files, |files| - 1);
      ChangedAre(known, init);
      var changed := Changed(known, init);
      forall k | 0 <= k < |changed|
        ensures changed[k].path != last.path
      {
        assert changed[k] in changed;
        var i :| 0 <= i < |files| - 1 && files[i] == changed[k];
      }
    }
  }

  // A file is looked at again unless its size and both its times are those held.
  lemma {:induction false} WhatIsLookedAt(known: map<Path, Row>, files: seq<File>, file: File)
    requires IsWalk(files)
    ensures file in Changed(known, files) <==>
              && file in files
              && (|| file.path !in known
                  || known[file.path].size != file.size
                  || known[file.path].mtime != file.mtime
                  || known[file.path].ctime != file.ctime)
  {
    ChangedAre(known, files);
  }

  // What a file is worth: read whole when it is half a mebibyte or less and can be read and
  // parsed, with its digest, its size and its times.
  lemma {:induction false} WhatAFileIsWorth(tools: Tools, file: File)
    ensures Fresh(tools, file) ==
            if file.size <= 524_288 && file.bytes.Some? && tools.parse(file.path, file.bytes.value).Some?
            then Some(Row(tools.digest(file.bytes.value), file.size, file.mtime, file.ctime,
                          tools.parse(file.path, file.bytes.value).value))
            else None
  {
  }

  // Which of those looked at are written, and which are only stamped: the ones whose contents
  // are other than those held, and the ones whose contents are the same.
  lemma {:induction false} WhatIsWritten(tools: Tools, known: map<Path, Row>, files: seq<File>, file: File)
    requires IsWalk(files) && file in files
    ensures var held := file.path in known && file.size <= 524_288 && file.bytes.Some? &&
                        known[file.path].digest == tools.digest(file.bytes.value);
            && (Touched(file.path, file.mtime, file.ctime) in TouchedOf(tools, known, files) <==> held)
            && (forall row :: Update(file.path, row) in UpdatesOf(tools, known, files) <==>
                  !held && Fresh(tools, file) == Some(row))
  {
    UpdatesAre(tools, known, files);
    TouchedAre(tools, known, files);
    hide UpdatesOf, TouchedOf, Fresh;
    forall other | other in files && other.path == file.path
      ensures other == file
    {
      OneFileAPath(files, other, file);
    }
  }

  lemma {:induction false} WrittenAt(rows: map<Path, Row>, updates: seq<Update>)
    requires DistinctPaths(updates)
    ensures forall update :: update in updates ==> Held(Written(rows, updates), update.path) == Some(update.row)
    ensures forall path :: (forall update :: update in updates ==> update.path != path) ==>
              Held(Written(rows, updates), path) == Held(rows, path)
  {
    if updates != [] {
      var init, last := updates[..|updates| - 1], updates[|updates| - 1];
      assert forall update :: update in updates <==> update in init || update == last;
      WrittenAt(rows, init);
      forall update | update in init
        ensures update.path != last.path
      {
        var i :| 0 <= i < |updates| - 1 && updates[i] == update;
      }
    }
  }

  // Renaming away and writing over leave every other path as it was.
  lemma {:induction false} RenamedAt(rows: map<Path, Row>, moves: seq<(Path, Path)>, path: Path)
    requires forall a, b :: a in moves && b in moves ==> a.0 != b.1
    ensures (forall move :: move in moves ==> move.1 != path) ==>
              Held(AllRenamed(rows, moves), path) ==
              if exists move :: move in moves && move.0 == path then None else Held(rows, path)
  {
    if moves != [] {
      var init, last := moves[..|moves| - 1], moves[|moves| - 1];
      assert forall move :: move in moves <==> move in init || move == last;
      RenamedAt(rows, init, path);
    }
  }

  lemma {:induction false} StampedAt(rows: map<Path, Row>, touched: seq<Touched>, path: Path)
    ensures (forall t :: t in touched ==> t.path != path) ==>
              Held(Stamped(rows, touched), path) == Held(rows, path)
    ensures forall t :: t in touched && t.path == path && path in rows &&
                        (forall u :: u in touched && u.path == path ==> u == t) ==>
              Held(Stamped(rows, touched), path) == Some(rows[path].(mtime := t.mtime, ctime := t.ctime))
  {
    if touched != [] {
      var init, last := touched[..|touched| - 1], touched[|touched| - 1];
      assert forall t :: t in touched <==> t in init || t == last;
      StampedAt(rows, init, path);
    }
  }

  lemma {:induction false} DistinctPrepends(updates: seq<Update>, some: seq<Update>)
    requires updates != [] && DistinctPaths(updates) && DistinctPaths(some)
    requires forall update :: update in some ==> update in updates[1..]
    ensures DistinctPaths([updates[0]] + some)
  {
    forall k | 0 <= k < |some|
      ensures some[k].path != updates[0].path
    {
      assert some[k] in updates[1..];
      var i :| 0 <= i < |updates| - 1 && updates[1..][i] == some[k];
      assert updates[i + 1] == some[k];
    }
  }

  lemma {:induction false} RetainedAre(updates: seq<Update>, always: set<Path>, budget: nat)
    requires DistinctPaths(updates)
    ensures DistinctPaths(Retained(updates, always, budget))
    ensures forall update :: update in Retained(updates, always, budget) ==> update in updates
    ensures forall update :: update in updates && update.path in always ==> update in Retained(updates, always, budget)
    ensures |Retained(updates, always, budget)| <= |updates|
    ensures |Retained(updates, always, budget)| == |updates| ==> Retained(updates, always, budget) == updates
  {
    if updates != [] {
      var symbols := |updates[0].row.parsed.symbols|;
      var free := updates[0].path in always;
      var left := if free || budget < symbols then budget else budget - symbols;
      assert DistinctPaths(updates[1..]);
      RetainedAre(updates[1..], always, left);
      var rest := Retained(updates[1..], always, left);
      assert updates == [updates[0]] + updates[1..];
      if free || symbols <= budget {
        assert Retained(updates, always, budget) == [updates[0]] + rest;
        DistinctPrepends(updates, rest);
      } else {
        assert Retained(updates, always, budget) == rest;
      }
      hide Retained, DistinctPaths;
    }
  }

  // The symbols of the updates that draw on the budget.
  function Drawn(updates: seq<Update>, always: set<Path>): nat {
    if updates == [] then 0
    else
      (if updates[0].path in always then 0 else |updates[0].row.parsed.symbols|) + Drawn(updates[1..], always)
  }

  // What is kept fits the budget, and nothing left out would have fitted beside it.
  lemma {:induction false} RetainedFits(updates: seq<Update>, always: set<Path>, budget: nat)
    ensures var kept := Retained(updates, always, budget);
            && Drawn(kept, always) <= budget
            && forall update :: update in updates && update !in kept ==>
                 update.path !in always && Drawn(kept, always) + |update.row.parsed.symbols| > budget
  {
    if updates != [] {
      var first, symbols := updates[0], |updates[0].row.parsed.symbols|;
      var free := first.path in always;
      var left := if free || budget < symbols then budget else budget - symbols;
      RetainedFits(updates[1..], always, left);
      var rest := Retained(updates[1..], always, left);
      assert updates == [first] + updates[1..];
      if free || symbols <= budget {
        assert Retained(updates, always, budget) == [first] + rest && ([first] + rest)[1..] == rest;
      }
      hide Retained;
    }
  }

  // --- What a reconcile owes ---

  // Every file of the walk settled from the row held for it, new files in `skipped` left
  // out, and nothing else held.
  ghost predicate IsReconciled(
    tools: Tools, known: map<Path, Row>, rows: map<Path, Row>, files: seq<File>, skipped: set<Path>)
  {
    && skipped !! known.Keys
    && (forall file :: file in files ==>
          Held(rows, file.path) ==
          if file.path in skipped then None else Settled(tools, Held(known, file.path), file))
    && (forall path :: path in rows ==> exists file :: file in files && file.path == path)
  }

  ghost predicate IsRebuild(tools: Tools, rows: map<Path, Row>, files: seq<File>) {
    && (forall file :: file in files ==> Held(rows, file.path) == Fresh(tools, file))
    && (forall path :: path in rows ==> exists file :: file in files && file.path == path)
  }

  // The passes of one reconcile put together.
  ghost predicate Passes(
    tools: Tools, known: map<Path, Row>, files: seq<File>, vanished: seq<Path>, moves: seq<(Path, Path)>,
    kept: seq<Update>, removed: set<Path>)
  {
    var updates := UpdatesOf(tools, known, Changed(known, files));
    && IsWalk(files)
    && Vanished(known, files, vanished)
    && (forall move :: move in moves <==> IsMove(known, updates, vanished, move))
    && DistinctPaths(kept)
    && (forall update :: update in kept ==> update in updates)
    && (forall update :: update in updates && update.path in known ==> update in kept)
    && (forall update, move :: update in updates && move in moves && update.path == move.1 ==> update in kept)
    && (forall path :: path in removed <==> path in vanished && forall move :: move in moves ==> move.0 != path)
  }

  ghost function After(
    tools: Tools, known: map<Path, Row>, files: seq<File>, moves: seq<(Path, Path)>, kept: seq<Update>,
    removed: set<Path>): map<Path, Row>
  {
    Stamped(Written(AllRenamed(known, moves) - removed, kept), TouchedOf(tools, known, Changed(known, files)))
  }

  ghost function Skipped(updates: seq<Update>, kept: seq<Update>): set<Path> {
    set update | update in updates && update !in kept :: update.path
  }

  // Which paths a reconcile keeps whatever the budget: those it holds, and those a file
  // moved to.
  ghost predicate Exempt(tools: Tools, known: map<Path, Row>, files: seq<File>, always: set<Path>) {
    exists vanished: seq<Path>, moves: seq<(Path, Path)> ::
      && AreMoves(tools, known, files, vanished, moves)
      && always == known.Keys + (set move | move in moves :: move.1)
  }

  ghost predicate AreMoves(
    tools: Tools, known: map<Path, Row>, files: seq<File>, vanished: seq<Path>, moves: seq<(Path, Path)>)
  {
    && Vanished(known, files, vanished)
    && forall move :: move in moves <==> IsMove(known, UpdatesOf(tools, known, Changed(known, files)), vanished, move)
  }

  ghost predicate Vanished(known: map<Path, Row>, files: seq<File>, vanished: seq<Path>) {
    forall path :: path in vanished <==> path in known && forall file :: file in files ==> file.path != path
  }

  // The new files that a reconcile leaves out for want of budget.
  ghost function LeftOut(
    tools: Tools, known: map<Path, Row>, files: seq<File>, always: set<Path>, budget: nat): set<Path>
  {
    var updates := UpdatesOf(tools, known, Changed(known, files));
    Skipped(updates, Retained(updates, always, budget))
  }

  // A path the walk does not list ends up with no row.
  lemma {:induction false} GonePathsAreDropped(
    tools: Tools, known: map<Path, Row>, files: seq<File>, vanished: seq<Path>, moves: seq<(Path, Path)>,
    kept: seq<Update>, removed: set<Path>, path: Path)
    requires Passes(tools, known, files, vanished, moves, kept, removed)
    requires forall file :: file in files ==> file.path != path
    ensures path !in After(tools, known, files, moves, kept, removed)
  {
    hide AllRenamed, Written, Stamped, UpdatesOf, TouchedOf, Changed;
    var changed := Changed(known, files);
    ChangedAre(known, files);
    UpdatesAre(tools, known, changed);
    TouchedAre(tools, known, changed);
    MovesApart(tools, known, files, vanished, moves, kept, removed);
    RenamedAt(known, moves, path);
    WrittenAt(AllRenamed(known, moves) - removed, kept);
    StampedAt(Written(AllRenamed(known, moves) - removed, kept), TouchedOf(tools, known, changed), path);
  }

  // What vanished is never what a file moved to.
  lemma {:induction false} MovesApart(
    tools: Tools, known: map<Path, Row>, files: seq<File>, vanished: seq<Path>, moves: seq<(Path, Path)>,
    kept: seq<Update>, removed: set<Path>)
    requires Passes(tools, known, files, vanished, moves, kept, removed)
    ensures forall move :: move in moves ==> exists file :: file in files && file.path == move.1
    ensures forall move, file :: move in moves && file in files ==> move.0 != file.path
    ensures forall a, b :: a in moves && b in moves ==> a.0 != b.1
    ensures forall move :: move in moves ==> exists update :: update in kept && update.path == move.1
  {
    ChangedAre(known, files);
    UpdatesAre(tools, known, Changed(known, files));
    forall move | move in moves
      ensures exists file :: file in files && file.path == move.1
      ensures exists update :: update in kept && update.path == move.1
    {
      assert IsMove(known, UpdatesOf(tools, known, Changed(known, files)), vanished, move);
    }
  }

  lemma {:induction false} OneFileAPath(files: seq<File>, a: File, b: File)
    requires IsWalk(files) && a in files && b in files && a.path == b.path
    ensures a == b
  {
  }

  lemma {:induction false} ListedPathsSettle(
    tools: Tools, known: map<Path, Row>, files: seq<File>, vanished: seq<Path>, moves: seq<(Path, Path)>,
    kept: seq<Update>, removed: set<Path>, file: File)
    requires Passes(tools, known, files, vanished, moves, kept, removed) && file in files
    ensures Held(After(tools, known, files, moves, kept, removed), file.path) ==
            if file.path in Skipped(UpdatesOf(tools, known, Changed(known, files)), kept) then None
            else Settled(tools, Held(known, file.path), file)
  {
    hide AllRenamed, Written, Stamped, UpdatesOf, TouchedOf, Changed;
    var path, changed := file.path, Changed(known, files);
    var updates, touched := UpdatesOf(tools, known, changed), TouchedOf(tools, known, changed);
    ChangedAre(known, files);
    UpdatesAre(tools, known, changed);
    TouchedAre(tools, known, changed);
    MovesApart(tools, known, files, vanished, moves, kept, removed);
    RenamedAt(known, moves, path);
    var base := AllRenamed(known, moves) - removed;
    WrittenAt(base, kept);
    StampedAt(Written(base, kept), touched, path);
    forall other | other in files && other.path == path
      ensures other == file
    {
      OneFileAPath(files, other, file);
    }
    if file in changed && Reparsed(tools, known, file) && Fresh(tools, file).Some? {
      var update := Update(path, Fresh(tools, file).value);
      assert update in updates;
      assert forall u :: u in updates && u.path == path ==> u == update;
    } else {
      assert forall u :: u in updates ==> u.path != path;
      assert Held(Written(base, kept), path) == Held(known, path);
      if file in changed && !Reparsed(tools, known, file) {
        assert Touched(path, file.mtime, file.ctime) in touched;
      }
    }
  }

  lemma {:induction false} PassesReconcile(
    tools: Tools, known: map<Path, Row>, files: seq<File>, vanished: seq<Path>, moves: seq<(Path, Path)>,
    kept: seq<Update>, removed: set<Path>)
    requires Passes(tools, known, files, vanished, moves, kept, removed)
    ensures IsReconciled(tools, known, After(tools, known, files, moves, kept, removed), files,
                         Skipped(UpdatesOf(tools, known, Changed(known, files)), kept))
  {
    var rows := After(tools, known, files, moves, kept, removed);
    hide After;
    forall file | file in files {
      ListedPathsSettle(tools, known, files, vanished, moves, kept, removed, file);
    }
    forall path | path in rows
      ensures exists file :: file in files && file.path == path
    {
      if forall file :: file in files ==> file.path != path {
        GonePathsAreDropped(tools, known, files, vanished, moves, kept, removed, path);
      }
    }
  }

  lemma {:induction false} PassesHold(
    tools: Tools, known: map<Path, Row>, files: seq<File>, seen: set<Path>, vanished: seq<Path>,
    moves: seq<(Path, Path)>, kept: seq<Update>, budget: nat, removed: set<Path>)
    requires IsWalk(files) && seen == set file | file in files :: file.path
    requires forall path :: path in vanished <==> path in known.Keys - seen
    requires var updates := UpdatesOf(tools, known, Changed(known, files));
             && (forall move :: move in moves <==> IsMove(known, updates, vanished, move))
             && kept == Retained(updates, known.Keys + (set move | move in moves :: move.1), budget)
    requires removed == (known.Keys - seen) - (set move | move in moves :: move.0)
    ensures Passes(tools, known, files, vanished, moves, kept, removed)
  {
    hide UpdatesOf, Changed, Retained, IsMove, Fresh;
    ChangedAre(known, files);
    UpdatesAre(tools, known, Changed(known, files));
    RetainedAre(UpdatesOf(tools, known, Changed(known, files)), known.Keys + (set move | move in moves :: move.1),
        budget);
  }

  lemma {:induction false} PassesComeTo(
    tools: Tools, known: map<Path, Row>, files: seq<File>, seen: set<Path>, vanished: seq<Path>,
    moves: seq<(Path, Path)>, kept: seq<Update>, budget: nat, removed: set<Path>)
    requires IsWalk(files) && seen == set file | file in files :: file.path
    requires forall path :: path in vanished <==> path in known.Keys - seen
    requires var updates := UpdatesOf(tools, known, Changed(known, files));
             && (forall move :: move in moves <==> IsMove(known, updates, vanished, move))
             && kept == Retained(updates, known.Keys + (set move | move in moves :: move.1), budget)
    requires removed == (known.Keys - seen) - (set move | move in moves :: move.0)
    ensures var always := known.Keys + (set move | move in moves :: move.1);
            var skipped := LeftOut(tools, known, files, always, budget);
            && IsReconciled(tools, known, After(tools, known, files, moves, kept, removed), files, skipped)
            && Exempt(tools, known, files, always)
            && (skipped != {} <==> |kept| < |UpdatesOf(tools, known, Changed(known, files))|)
  {
    hide UpdatesOf, Changed, Retained, IsMove, Fresh, IsReconciled, After;
    var updates := UpdatesOf(tools, known, Changed(known, files));
    PassesHold(tools, known, files, seen, vanished, moves, kept, budget, removed);
    PassesReconcile(tools, known, files, vanished, moves, kept, removed);
    RetainedAre(updates, known.Keys + (set move | move in moves :: move.1), budget) by {
      ChangedAre(known, files);
      UpdatesAre(tools, known, Changed(known, files));
    }
    SomeAreSkipped(updates, kept) by {
      ChangedAre(known, files);
      UpdatesAre(tools, known, Changed(known, files));
    }
    assert AreMoves(tools, known, files, vanished, moves);
  }

  // --- A reconcile against a rebuild ---

  predicate CameFrom(tools: Tools, path: Path, row: Row, contents: Contents) {
    && row.digest == tools.digest(contents)
    && row.size == |contents| <= MAX_FILE_BYTES
    && tools.parse(path, contents) == Some(row.parsed)
  }

  // Every row came from contents that were read, small enough and parsed.
  ghost predicate Honest(tools: Tools, rows: map<Path, Row>) {
    forall path :: path in rows ==> exists contents :: CameFrom(tools, path, rows[path], contents)
  }

  // Equal size, mtime and ctime mean equal contents.
  ghost predicate StampsTell(tools: Tools, rows: map<Path, Row>, files: seq<File>) {
    forall file :: file in files && file.path in rows && SameStamps(rows[file.path], file) ==>
      SameContents(tools, rows[file.path], file)
  }

  lemma {:induction false} SettledFile(tools: Tools, known: map<Path, Row>, files: seq<File>, file: File)
    requires Injective(tools.digest) && IsWalk(files) && Honest(tools, known) && StampsTell(tools, known, files)
    requires file in files
    ensures Settled(tools, Held(known, file.path), file) == Fresh(tools, file) <==>
            (file.path in known ==> Fresh(tools, file).Some?)
  {
    if file.path in known {
      var row := known[file.path];
      var contents :| CameFrom(tools, file.path, row, contents);
      assert SameContents(tools, row, file) ==> file.bytes.value == contents;
    }
  }

  // Exactly when a reconcile with no limit hit comes out as a rebuild: no file the index
  // already held has become one a build would leave out (too large, unreadable, not
  // UTF-8, or in no language it knows).
  lemma {:induction false} ReconcileIsRebuildIff(
    tools: Tools, known: map<Path, Row>, rows: map<Path, Row>, files: seq<File>)
    requires Injective(tools.digest) && IsWalk(files) && Honest(tools, known) && StampsTell(tools, known, files)
    requires IsReconciled(tools, known, rows, files, {})
    ensures IsRebuild(tools, rows, files) <==>
            forall file :: file in files && file.path in known ==> Fresh(tools, file).Some?
  {
    forall file | file in files
      ensures Held(rows, file.path) == Fresh(tools, file) <==> (file.path in known ==> Fresh(tools, file).Some?)
    {
      SettledFile(tools, known, files, file);
    }
    hide Fresh, Settled, Honest, StampsTell, IsWalk;
  }

  // The condition is needed: a known file that stops being readable as text keeps the row
  // of its old contents, where a build holds none.
  lemma {:induction false} UnreadableFileIsLeftStale()
    ensures exists tools: Tools, known: map<Path, Row>, files: seq<File> ::
              && Injective(tools.digest) && IsWalk(files) && Honest(tools, known) && StampsTell(tools, known, files)
              && IsReconciled(tools, known, known, files, {}) && !IsRebuild(tools, known, files)
  {
    var parsed := Parsed("text", 1, []);
    var tools := Tools(contents => contents, (path, contents) => if contents == "x" then Some(parsed) else None);
    var known: map<Path, Row> := map["a" := Row("x", 1, 0, 0, parsed)];
    var file := File("a", 1, 1, 0, Some("y"));
    assert CameFrom(tools, "a", known["a"], "x");
    assert Held(known, "a") == Settled(tools, Held(known, "a"), file);
    assert file in [file] && Held(known, file.path) != Fresh(tools, file);
    assert IsReconciled(tools, known, known, [file], {}) && !IsRebuild(tools, known, [file]);
  }

  lemma {:induction false} RebuildsAreHonest(tools: Tools, rows: map<Path, Row>, files: seq<File>)
    requires IsWalk(files) && IsRebuild(tools, rows, files)
    ensures Honest(tools, rows)
  {
    forall path | path in rows
      ensures exists contents :: CameFrom(tools, path, rows[path], contents)
    {
      var file :| file in files && file.path == path;
      assert Held(rows, file.path) == Fresh(tools, file);
      assert CameFrom(tools, path, rows[path], file.bytes.value);
    }
  }

  // A project over time: the disk at each reconcile, and the index after it.
  datatype Day = Day(files: seq<File>, rows: map<Path, Row>)

  ghost predicate FollowsOn(tools: Tools, before: Day, after: Day) {
    && IsWalk(after.files)
    && StampsTell(tools, before.rows, after.files)
    && (forall file :: file in after.files && file.path in before.rows ==> Fresh(tools, file).Some?)
    && IsReconciled(tools, before.rows, after.rows, after.files, {})
  }

  // After any sequence of disk changes and reconciles the index is the one a rebuild
  // from scratch would write.
  lemma {:induction false} ReconcilesKeepUp(tools: Tools, days: seq<Day>, k: nat)
    requires Injective(tools.digest) && k < |days|
    requires IsWalk(days[0].files) && IsRebuild(tools, days[0].rows, days[0].files)
    requires forall i :: 0 <= i < |days| - 1 ==> FollowsOn(tools, days[i], days[i + 1])
    ensures IsWalk(days[k].files) && IsRebuild(tools, days[k].rows, days[k].files)
  {
    if k > 0 {
      ReconcilesKeepUp(tools, days, k - 1);
      assert FollowsOn(tools, days[k - 1], days[k - 1 + 1]);
      hide IsWalk, IsRebuild, IsReconciled, Fresh;
      RebuildsAreHonest(tools, days[k - 1].rows, days[k - 1].files);
      ReconcileIsRebuildIff(tools, days[k - 1].rows, days[k].rows, days[k].files);
    }
  }

  lemma {:induction false} BuildWritesFresh(tools: Tools, files: seq<File>)
    requires IsWalk(files)
    ensures IsRebuild(tools, Written(map[], UpdatesOf(tools, map[], files)), files)
  {
    var updates := UpdatesOf(tools, map[], files);
    UpdatesAre(tools, map[], files);
    WrittenAt(map[], updates);
    var rows := Written(map[], updates);
    hide UpdatesOf, Written;
    forall file | file in files
      ensures Held(rows, file.path) == Fresh(tools, file)
    {
      forall update | update in updates && update.path == file.path
        ensures Fresh(tools, file).Some?
      {
        var other :| other in files && other.path == update.path && Fresh(tools, other) == Some(update.row);
        OneFileAPath(files, file, other);
      }
      if Fresh(tools, file).Some? {
        assert Update(file.path, Fresh(tools, file).value) in updates;
      }
    }
    forall path | path in rows
      ensures exists file :: file in files && file.path == path
    {
      assert Held(rows, path) != Held(map[], path);
      var update :| update in updates && update.path == path;
    }
  }

  // Keeping fewer updates is skipping some.
  lemma {:induction false} SomeAreSkipped(updates: seq<Update>, kept: seq<Update>)
    requires DistinctPaths(updates) && DistinctPaths(kept)
    requires forall update :: update in kept ==> update in updates
    requires |kept| == |updates| ==> kept == updates
    ensures Skipped(updates, kept) != {} <==> |kept| < |updates|
  {
    SizeIsPaths(updates);
    SizeIsPaths(kept);
    var all, some := set update | update in updates, set update | update in kept;
    if Skipped(updates, kept) == {} {
      forall update | update in updates
        ensures update in kept
      {
        assert update !in kept ==> update.path in Skipped(updates, kept);
      }
      assert all == some;
    } else {
      assert all == some + (all - some) && all - some != {};
    }
  }

  lemma {:induction false} SizeIsPaths(updates: seq<Update>)
    requires DistinctPaths(updates)
    ensures |set update | update in updates| == |updates|
  {
    if updates != [] {
      var init, last := updates[..|updates| - 1], updates[|updates| - 1];
      SizeIsPaths(init);
      assert updates == init + [last];
      assert (set update | update in updates) == (set update | update in init) + {last};
      assert forall i :: 0 <= i < |init| ==> init[i].path != last.path;
    }
  }

  // How many files are behind the first updates.
  lemma {:induction false} CutUpdates(tools: Tools, files: seq<File>, m: nat) returns (read: nat)
    requires m < |UpdatesOf(tools, map[], files)|
    ensures read < |files|
    ensures UpdatesOf(tools, map[], files[..read]) == UpdatesOf(tools, map[], files)[..m]
    ensures UpdatesOf(tools, map[], files[..read + 1]) == UpdatesOf(tools, map[], files)[..m + 1]
  {
    var init := files[..|files| - 1];
    if m < |UpdatesOf(tools, map[], init)| {
      read := CutUpdates(tools, init, m);
      assert init[..read] == files[..read] && init[..read + 1] == files[..read + 1];
    } else {
      read := |files| - 1;
      assert files[..read + 1] == files;
    }
  }

  // --- The symbols stored ---

  ghost function SymbolsIn(rows: map<Path, Row>): nat {
    if rows == map[] then 0
    else
      var path :| path in rows;
      |rows[path].parsed.symbols| + SymbolsIn(rows - {path})
  }

  // In whatever order they are counted.
  lemma {:induction false} SymbolsWithout(rows: map<Path, Row>, path: Path)
    requires path in rows
    ensures SymbolsIn(rows) == |rows[path].parsed.symbols| + SymbolsIn(rows - {path})
    decreases |rows|
  {
    var first :| first in rows && SymbolsIn(rows) == |rows[first].parsed.symbols| + SymbolsIn(rows - {first});
    if first != path {
      SymbolsWithout(rows - {first}, path);
      SymbolsWithout(rows - {path}, first);
      assert rows - {first} - {path} == rows - {path} - {first};
    }
  }

  predicate SameSymbols(a: map<Path, Row>, b: map<Path, Row>) {
    a.Keys == b.Keys && forall path :: path in a && path in b ==> a[path].parsed == b[path].parsed
  }

  lemma {:induction false} SameSymbolsCount(a: map<Path, Row>, b: map<Path, Row>)
    requires SameSymbols(a, b)
    ensures SymbolsIn(a) == SymbolsIn(b)
    decreases |a|
  {
    if a == map[] {
      assert b == map[];
    } else {
      var path :| path in a;
      assert path in b;
      SymbolsWithout(a, path);
      SymbolsWithout(b, path);
      SameSymbolsCount(a - {path}, b - {path});
    }
  }

  lemma {:induction false} StampsKeepSymbols(rows: map<Path, Row>, touched: seq<Touched>)
    ensures SameSymbols(rows, Stamped(rows, touched))
  {
    if touched != [] {
      StampsKeepSymbols(rows, touched[..|touched| - 1]);
    }
  }

  // The update's row stands in the map, with nothing besides.
  predicate Holds(rows: map<Path, Row>, updates: seq<Update>, always: set<Path>) {
    && (forall update :: update in updates && update.path !in always ==>
          Held(rows, update.path) == Some(update.row))
    && (forall path :: path in rows ==> path !in always && exists update :: update in updates && update.path == path)
  }

  lemma {:induction false} TheRestIsElsewhere(updates: seq<Update>)
    requires updates != [] && DistinctPaths(updates)
    ensures DistinctPaths(updates[1..])
    ensures forall update :: update in updates <==> update == updates[0] || update in updates[1..]
    ensures forall update :: update in updates[1..] ==> update.path != updates[0].path
  {
    var rest := updates[1..];
    assert updates == [updates[0]] + rest;
    forall update | update in rest
      ensures update.path != updates[0].path
    {
      var i :| 0 <= i < |rest| && rest[i] == update;
      assert updates[i + 1] == update;
    }
  }

  lemma {:induction false} HoldsTheRest(rows: map<Path, Row>, updates: seq<Update>, always: set<Path>)
    requires updates != [] && DistinctPaths(updates) && Holds(rows, updates, always)
    ensures Holds(rows - {updates[0].path}, updates[1..], always) && DistinctPaths(updates[1..])
    ensures Held(rows, updates[0].path) == if updates[0].path in always then None else Some(updates[0].row)
  {
    hide DistinctPaths;
    TheRestIsElsewhere(updates);
  }

  lemma {:induction false} DrawnIsStored(rows: map<Path, Row>, updates: seq<Update>, always: set<Path>)
    requires DistinctPaths(updates) && Holds(rows, updates, always)
    ensures SymbolsIn(rows) == Drawn(updates, always)
    decreases |updates|, 1
  {
    if updates == [] {
      assert rows == map[];
    } else {
      HoldsTheRest(rows, updates, always);
      DrawnIsStoredFrom(rows, updates, always);
    }
  }

  lemma {:induction false} DrawnIsStoredFrom(rows: map<Path, Row>, updates: seq<Update>, always: set<Path>)
    requires updates != [] && DistinctPaths(updates[1..])
    requires Holds(rows - {updates[0].path}, updates[1..], always)
    requires Held(rows, updates[0].path) == if updates[0].path in always then None else Some(updates[0].row)
    ensures SymbolsIn(rows) == Drawn(updates, always)
    decreases |updates|, 0
  {
    hide Holds, DistinctPaths;
    var first := updates[0];
    DrawnIsStored(rows - {first.path}, updates[1..], always);
    if first.path in rows {
      SymbolsWithout(rows, first.path);
    } else {
      assert rows - {first.path} == rows;
    }
  }

  // New files are taken in while they fit the budget, and none left out would have fitted.
  lemma {:induction false} NewFilesFit(
    tools: Tools, known: map<Path, Row>, rows: map<Path, Row>, files: seq<File>, always: set<Path>, budget: nat)
    requires IsWalk(files) && known.Keys <= always
    requires IsReconciled(tools, known, rows, files, LeftOut(tools, known, files, always, budget))
    ensures SymbolsIn(rows - always) <= budget
    ensures forall file :: file in files && file.path in LeftOut(tools, known, files, always, budget) ==>
              && Fresh(tools, file).Some?
              && SymbolsIn(rows - always) + |Fresh(tools, file).value.parsed.symbols| > budget
  {
    var changed := Changed(known, files);
    var updates := UpdatesOf(tools, known, changed);
    var kept := Retained(updates, always, budget);
    ChangedAre(known, files);
    UpdatesAre(tools, known, changed);
    RetainedAre(updates, always, budget);
    RetainedFits(updates, always, budget);
    hide Retained, UpdatesOf, Changed, Fresh;
    NewFilesHeld(tools, known, rows, files, always, budget);
    DrawnIsStored(rows - always, kept, always);
    forall file | file in files && file.path in LeftOut(tools, known, files, always, budget)
      ensures Fresh(tools, file).Some?
      ensures Drawn(kept, always) + |Fresh(tools, file).value.parsed.symbols| > budget
    {
      var update :| update in updates && update !in kept && update.path == file.path;
      var other :| other in changed && other.path == update.path && Fresh(tools, other) == Some(update.row);
      OneFileAPath(files, file, other);
    }
  }

  lemma {:induction false} NewFilesHeld(
    tools: Tools, known: map<Path, Row>, rows: map<Path, Row>, files: seq<File>, always: set<Path>, budget: nat)
    requires IsWalk(files) && known.Keys <= always
    requires IsReconciled(tools, known, rows, files, LeftOut(tools, known, files, always, budget))
    ensures Holds(rows - always, Retained(UpdatesOf(tools, known, Changed(known, files)), always, budget), always)
  {
    hide Retained, UpdatesOf, Changed, Fresh;
    var changed := Changed(known, files);
    var updates := UpdatesOf(tools, known, changed);
    var kept := Retained(updates, always, budget);
    ChangedAre(known, files);
    UpdatesAre(tools, known, changed);
    RetainedAre(updates, always, budget);
    forall update | update in kept && update.path !in always
      ensures Held(rows - always, update.path) == Some(update.row)
    {
      var file :| file in changed && file.path == update.path && Fresh(tools, file) == Some(update.row);
      assert file in files;
      assert update.path !in Skipped(updates, kept) by {
        OneUpdateAPath(updates, update);
      }
    }
    forall path | path in rows - always
      ensures exists update :: update in kept && update.path == path
    {
      var file :| file in files && file.path == path;
      assert file in changed && Fresh(tools, file).Some?;
      var update := Update(path, Fresh(tools, file).value);
      assert update in updates && path !in Skipped(updates, kept);
    }
  }

  lemma {:induction false} OneUpdateAPath(updates: seq<Update>, update: Update)
    requires DistinctPaths(updates) && update in updates
    ensures forall other :: other in updates && other.path == update.path ==> other == update
  {
  }

  // With nothing moved, dropped or written, the passes change stamps alone.
  lemma {:induction false} OnlyStamps(rows: map<Path, Row>, touched: seq<Touched>)
    ensures var after := Stamped(Written(AllRenamed(rows, []) - {}, []), touched);
            SameSymbols(rows, after) && SymbolsIn(after) == SymbolsIn(rows)
  {
    assert AllRenamed(rows, []) - {} == rows;
    StampsKeepSymbols(rows, touched);
    SameSymbolsCount(rows, Stamped(rows, touched));
  }

  // What is stored of a project: its rows, and how many symbols were counted when they last
  // changed.
  datatype Stored = Stored(rows: map<Path, Row>, saved: nat)

  // One reconcile of an index that is there. The count is taken again unless nothing changed
  // but stamps.
  ghost predicate Reconciles(
    tools: Tools, before: Stored, after: Stored, files: seq<File>, always: set<Path>, maxSymbols: nat)
  {
    && IsWalk(files)
    && Exempt(tools, before.rows, files, always)
    && IsReconciled(tools, before.rows, after.rows, files,
                    LeftOut(tools, before.rows, files, always, Max(0, maxSymbols - before.saved)))
    && (after.saved == SymbolsIn(after.rows) ||
        (after.saved == before.saved && SameSymbols(before.rows, after.rows)))
  }

  lemma {:induction false} CountIsKept(
    tools: Tools, before: Stored, after: Stored, files: seq<File>, always: set<Path>, maxSymbols: nat)
    requires Reconciles(tools, before, after, files, always, maxSymbols)
    requires before.saved == SymbolsIn(before.rows)
    ensures after.saved == SymbolsIn(after.rows)
  {
    hide IsReconciled, LeftOut, Exempt, IsWalk;
    if SameSymbols(before.rows, after.rows) {
      SameSymbolsCount(before.rows, after.rows);
    }
  }

  lemma {:induction false} LimitHolds(
    tools: Tools, before: Stored, after: Stored, files: seq<File>, always: set<Path>, maxSymbols: nat)
    requires Reconciles(tools, before, after, files, always, maxSymbols)
    requires before.saved == SymbolsIn(before.rows)
    ensures var added := SymbolsIn(after.rows - always);
            added == 0 || SymbolsIn(before.rows) + added <= maxSymbols
  {
    hide IsReconciled, LeftOut, IsWalk, AreMoves, SameSymbols;
    NewFilesFit(tools, before.rows, after.rows, files, always, Max(0, maxSymbols - before.saved));
  }

  // Over any sequence of reconciles: the count kept is that of the symbols stored, and a
  // reconcile takes in new files with symbols only while those and the ones stored before it
  // keep to the limit.
  lemma {:induction false} LimitsHold(
    tools: Tools, stored: seq<Stored>, walks: seq<seq<File>>, exempt: seq<set<Path>>, limits: seq<nat>, k: nat)
    requires |walks| == |exempt| == |limits| && |stored| == |walks| + 1 && k <= |walks|
    requires stored[0].saved == SymbolsIn(stored[0].rows)
    requires forall i :: 0 <= i < |walks| ==>
               Reconciles(tools, stored[i], stored[i + 1], walks[i], exempt[i], limits[i])
    ensures stored[k].saved == SymbolsIn(stored[k].rows)
    ensures k < |walks| ==>
              var added := SymbolsIn(stored[k + 1].rows - exempt[k]);
              added == 0 || SymbolsIn(stored[k].rows) + added <= limits[k]
  {
    hide Reconciles, SymbolsIn;
    if k > 0 {
      LimitsHold(tools, stored, walks, exempt, limits, k - 1);
      assert Reconciles(tools, stored[k - 1], stored[k - 1 + 1], walks[k - 1], exempt[k - 1], limits[k - 1]);
      CountIsKept(tools, stored[k - 1], stored[k], walks[k - 1], exempt[k - 1], limits[k - 1]);
    }
    if k < |walks| {
      LimitHolds(tools, stored[k], stored[k + 1], walks[k], exempt[k], limits[k]);
    }
  }

  class Index {
    const tools: Tools
    // Every row the store holds for the project, by path.
    var rows: map<Path, Row>
    // The symbol count written down by the last build or changing reconcile.
    var saved: nat
    // Whether the stored layout is current and its build finished.
    var built: bool

    // The count saved is that of the symbols stored.
    ghost predicate Valid()
      reads this
    {
      built ==> saved == SymbolsIn(rows)
    }

    constructor (tools: Tools)
      ensures Valid() && this.tools == tools && rows == map[] && !built
    {
      this.tools := tools;
      rows, saved, built := map[], 0, false;
    }

    // Reads every file and parses those whose contents differ from the ones held.
    method ParseAll(files: seq<File>, known: map<Path, Row>) returns (updates: seq<Update>, touched: seq<Touched>)
      ensures updates == UpdatesOf(tools, known, files) && touched == TouchedOf(tools, known, files)
    {
      updates, touched := [], [];
      for i := 0 to |files|
        invariant updates == UpdatesOf(tools, known, files[..i])
        invariant touched == TouchedOf(tools, known, files[..i])
      {
        assert files[..i + 1][..i] == files[..i];
        var file := files[i];
        if file.size <= MAX_FILE_BYTES && file.bytes.Some? {
          if file.path in known && known[file.path].digest == tools.digest(file.bytes.value) {
            touched := touched + [Touched(file.path, file.mtime, file.ctime)];
          } else {
            match tools.parse(file.path, file.bytes.value) {
              case None =>
              case Some(parsed) =>
                var row := Row(tools.digest(file.bytes.value), file.size, file.mtime, file.ctime, parsed);
                updates := updates + [Update(file.path, row)];
            }
          }
        }
      }
      assert files[..|files|] == files;
    }

    // Keeps the longest run of whole files whose symbols fit the budget.
    method TruncateToBudget(updates: seq<Update>, maxSymbols: nat) returns (kept: seq<Update>, truncated: bool)
      ensures kept <= updates && TotalSymbols(kept) <= maxSymbols
      ensures truncated <==> kept != updates
      ensures truncated ==> TotalSymbols(updates[..|kept| + 1]) > maxSymbols
    {
      var total := 0;
      for i := 0 to |updates|
        invariant total == TotalSymbols(updates[..i]) <= maxSymbols
      {
        assert updates[..i + 1][..i] == updates[..i];
        total := total + |updates[i].row.parsed.symbols|;
        if total > maxSymbols {
          return updates[..i], true;
        }
      }
      assert updates[..|updates|] == updates;
      return updates, false;
    }

    method Write(updates: seq<Update>)
      modifies `rows
      ensures rows == Written(old(rows), updates)
    {
      for i := 0 to |updates|
        invariant rows == Written(old(rows), updates[..i])
      {
        assert updates[..i + 1][..i] == updates[..i];
        rows := rows[updates[i].path := updates[i].row];
      }
      assert updates[..|updates|] == updates;
    }

    method Drop(paths: seq<Path>)
      modifies `rows
      ensures rows == old(rows) - (set path | path in paths)
    {
      for i := 0 to |paths|
        invariant rows == old(rows) - (set path | path in paths[..i])
      {
        rows := rows - {paths[i]};
      }
      assert paths[..|paths|] == paths;
    }

    method Move(moves: seq<(Path, Path)>)
      modifies `rows
      ensures rows == AllRenamed(old(rows), moves)
    {
      for i := 0 to |moves|
        invariant rows == AllRenamed(old(rows), moves[..i])
      {
        assert moves[..i + 1][..i] == moves[..i];
        var (from, to) := moves[i];
        rows := rows - {to};
        if from in rows {
          rows := (rows - {from})[to := rows[from]];
        }
      }
      assert moves[..|moves|] == moves;
    }

    method Touch(touched: seq<Touched>)
      modifies `rows
      ensures rows == Stamped(old(rows), touched)
    {
      for i := 0 to |touched|
        invariant rows == Stamped(old(rows), touched[..i])
      {
        assert touched[..i + 1][..i] == touched[..i];
        var t := touched[i];
        if t.path in rows {
          rows := rows[t.path := rows[t.path].(mtime := t.mtime, ctime := t.ctime)];
        }
      }
      assert touched[..|touched|] == touched;
    }

    method ListOf(paths: set<Path>) returns (list: seq<Path>)
      ensures forall path :: path in list <==> path in paths
      ensures forall i, j :: 0 <= i < j < |list| ==> list[i] != list[j]
    {
      list := [];
      var left := paths;
      while left != {}
        invariant left <= paths
        invariant forall path :: path in list <==> path in paths - left
        invariant forall i, j :: 0 <= i < j < |list| ==> list[i] != list[j]
      {
        var path :| path in left;
        assert path !in list;
        left := left - {path};
        list := list + [path];
      }
    }

    method CountSymbols() returns (count: nat)
      ensures count == SymbolsIn(rows)
    {
      count := 0;
      var left := rows;
      while left != map[]
        invariant left.Keys <= rows.Keys && forall path :: path in left ==> left[path] == rows[path]
        invariant count + SymbolsIn(left) == SymbolsIn(rows)
        decreases |left|
      {
        var path :| path in left;
        SymbolsWithout(left, path);
        count := count + |left[path].parsed.symbols|;
        left := left - {path};
      }
    }

    // Reads every candidate and writes the whole index from scratch: that of all files, or of
    // the first `read` of them, as many as the symbol budget takes.
    method Build(files: seq<File>, walkPartial: bool, maxSymbols: nat) returns (partial: bool, ghost read: nat)
      requires IsWalk(files)
      modifies this
      ensures Valid() && built && read <= |files| && IsRebuild(tools, rows, files[..read])
      ensures TotalSymbols(UpdatesOf(tools, map[], files[..read])) <= maxSymbols
      ensures read < |files| ==> TotalSymbols(UpdatesOf(tools, map[], files[..read + 1])) > maxSymbols
      ensures partial <==> walkPartial || read < |files|
    {
      hide UpdatesOf, Written, IsRebuild, TotalSymbols, IsWalk;
      var updates, _ := ParseAll(files, map[]);
      var kept, truncated := TruncateToBudget(updates, maxSymbols);
      partial := walkPartial || truncated;
      read := |files|;
      assert files[..read] == files;
      if truncated {
        read := CutUpdates(tools, files, |kept|);
      }
      assert kept == UpdatesOf(tools, map[], files[..read]);
      rows := map[];
      Write(kept);
      saved := CountSymbols();
      built := true;
      WalkPrefix(files, read);
      BuildWritesFresh(tools, files[..read]);
    }

    method ChangedFiles(files: seq<File>) returns (changed: seq<File>, seen: set<Path>)
      ensures changed == Changed(rows, files)
      ensures seen == set file | file in files :: file.path
    {
      changed, seen := [], {};
      for i := 0 to |files|
        invariant changed == Changed(rows, files[..i])
        invariant seen == set file | file in files[..i] :: file.path
      {
        assert files[..i + 1][..i] == files[..i];
        assert files[..i + 1] == files[..i] + [files[i]];
        seen := seen + {files[i].path};
        if !(files[i].path in rows && SameStamps(rows[files[i].path], files[i])) {
          changed := changed + [files[i]];
        }
      }
      assert files[..|files|] == files;
    }

    // Files the index already holds, or that moved, are always kept; only new ones draw
    // on the budget.
    method Retain(updates: seq<Update>, always: set<Path>, budget: nat) returns (kept: seq<Update>)
      ensures kept == Retained(updates, always, budget)
    {
      kept := [];
      var left: nat := budget;
      for i := 0 to |updates|
        invariant kept + Retained(updates[i..], always, left) == Retained(updates, always, budget)
      {
        var symbols := |updates[i].row.parsed.symbols|;
        assert updates[i..][1..] == updates[i + 1..];
        if updates[i].path in always {
          kept := kept + [updates[i]];
        } else if symbols <= left {
          left := left - symbols;
          kept := kept + [updates[i]];
        }
      }
      assert updates[|updates|..] == [];
    }

    // Re-reads only what changed on disk. `skipped` are the new files left out for want of
    // budget.
    method Reconcile(files: seq<File>, walkPartial: bool, maxSymbols: nat)
      returns (partial: bool, ghost skipped: set<Path>, ghost always: set<Path>)
      requires Valid() && IsWalk(files)
      modifies this
      ensures Valid() && built
      ensures old(rows) != map[] && old(built) ==>
                && IsReconciled(tools, old(rows), rows, files, skipped)
                && skipped == LeftOut(tools, old(rows), files, always, Max(0, maxSymbols - SymbolsIn(old(rows))))
                && Reconciles(tools, old(Stored(rows, saved)), Stored(rows, saved), files, always, maxSymbols)
                && (partial <==> walkPartial || skipped != {})
      ensures old(rows) == map[] || !old(built) ==>
                exists read: nat :: read <= |files| && IsRebuild(tools, rows, files[..read]) &&
                                    (partial <==> walkPartial || read < |files|)
    {
      skipped, always := {}, {};
      var known := rows;
      if known == map[] || !built {
        ghost var read;
        partial, read := Build(files, walkPartial, maxSymbols);
        return;
      }
      partial, skipped, always := ReconcileKnown(files, walkPartial, maxSymbols);
    }

    method ReconcileKnown(files: seq<File>, walkPartial: bool, maxSymbols: nat)
      returns (partial: bool, ghost skipped: set<Path>, ghost always: set<Path>)
      requires IsWalk(files) && saved == SymbolsIn(rows)
      modifies `rows, `saved
      ensures saved == SymbolsIn(rows)
      ensures IsReconciled(tools, old(rows), rows, files, skipped)
      ensures skipped == LeftOut(tools, old(rows), files, always, Max(0, maxSymbols - SymbolsIn(old(rows))))
      ensures Reconciles(tools, old(Stored(rows, saved)), Stored(rows, saved), files, always, maxSymbols)
      ensures partial <==> walkPartial || skipped != {}
    {
      hide AllRenamed, Written, Stamped, UpdatesOf, TouchedOf, Changed, Retained, IsReconciled, IsMove, Fresh, LeftOut,
           Exempt, SymbolsIn, SameSymbols;
      var known := rows;
      var candidates, seen := ChangedFiles(files);
      var updates, touched := ParseAll(candidates, known);
      var vanished := ListOf(known.Keys - seen);
      var moves := DetectMoves(known, updates, vanished) by {
        ChangedAre(known, files);
        UpdatesAre(tools, known, candidates);
      }
      var movedTo := set move | move in moves :: move.1;
      var movedFrom := set move | move in moves :: move.0;
      var budget := if maxSymbols > saved then maxSymbols - saved else 0;
      always := known.Keys + movedTo;
      var kept := Retain(updates, known.Keys + movedTo, budget);
      partial := walkPartial || |kept| < |updates|;
      var removed := ListOf((known.Keys - seen) - movedFrom);
      ghost var gone := set path | path in removed;
      skipped := LeftOut(tools, known, files, always, budget);
      PassesComeTo(tools, known, files, seen, vanished, moves, kept, budget, gone);
      Store(moves, removed, kept, touched);
      if moves == [] && removed == [] && kept == [] {
        assert gone == {};
        OnlyStamps(known, touched);
      }
      if kept != [] || removed != [] || moves != [] {
        saved := CountSymbols();
      }
    }

    method Store(moves: seq<(Path, Path)>, removed: seq<Path>, kept: seq<Update>, touched: seq<Touched>)
      modifies `rows
      ensures rows == Stamped(Written(AllRenamed(old(rows), moves) - (set path | path in removed), kept), touched)
    {
      Move(moves);
      Drop(removed);
      Write(kept);
      Touch(touched);
    }
  }
}
