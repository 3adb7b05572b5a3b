/** Recovery reads the whole manifest into one builder.  In every reachable state that gives
    exactly the files of the current version, because a file number is added to a level at
    most once. */
module ManifestReplay {
  import opened Keys
  import opened Store
  import opened Reorganise
  import opened FileSearch
  import opened Engine
  import opened EngineInvariant
  import opened EngineCrash
  import opened EngineViews
  import opened VersionBuilder

  ghost predicate Added(m: seq<Edit>, l: nat, n: nat) {
    exists i, p :: 0 <= i < |m| && p in m[i].added && p.0 == l && p.1.number == n
  }

  ghost predicate EditOk(e: Edit) {
    && (forall p :: p in e.added ==> p.0 < NUM_LEVELS)
    && (forall p :: p in e.deleted ==> p.0 < NUM_LEVELS)
    && (forall p, q :: p in e.added && q in e.added && p.0 == q.0 && p.1.number == q.1.number ==> p == q)
  }

  /** Each edit adds numbers that no earlier one added to the same level. */
  ghost predicate ManifestOk(m: seq<Edit>) {
    if m == [] then true
    else
      var e := m[|m| - 1];
      && ManifestOk(m[..|m| - 1]) && EditOk(e)
      && forall p :: p in e.added ==> !Added(m[..|m| - 1], p.0, p.1.number)
  }

  lemma AddedAppend(m: seq<Edit>, e: Edit, l: nat, n: nat)
    ensures Added(m + [e], l, n) <==> Added(m, l, n) || exists p :: p in e.added && p.0 == l && p.1.number == n
  {
    var m' := m + [e];
    if Added(m, l, n) {
      var i, p :| 0 <= i < |m| && p in m[i].added && p.0 == l && p.1.number == n;
      assert p in m'[i].added;
    }
    if exists p :: p in e.added && p.0 == l && p.1.number == n {
      var p :| p in e.added && p.0 == l && p.1.number == n;
      assert p in m'[|m|].added;
    }
  }

  /** Vectors that list the new files of each edit. */
  ghost predicate ListsNews(news: seq<seq<(nat, FileMeta)>>, m: seq<Edit>) {
    && |news| == |m|
    && forall i :: 0 <= i < |m| ==>
         && (forall p :: p in news[i] <==> p in m[i].added)
         && (forall j, k :: 0 <= j < k < |news[i]| ==> news[i][j] != news[i][k])
  }

  /** One builder over all records gives what applying them one version at a time gives. */
  method ReplayManifest(m: seq<Edit>, news: seq<seq<(nat, FileMeta)>>) returns (files: seq<seq<FileMeta>>)
    requires ManifestOk(m) && ListsNews(news, m)
    ensures |files| == NUM_LEVELS
    ensures forall l :: 0 <= l < NUM_LEVELS ==> InOrder(files[l]) && Files(files[l]) == Replay(m)[l]
  {
    var builder := new Builder(seq(NUM_LEVELS, _ => []));
    for i := 0 to |m|
      invariant builder.Valid() && fresh(builder)
      invariant forall l :: 0 <= l < NUM_LEVELS ==> builder.Level(l) == Replay(m[..i])[l]
      invariant forall l: nat, n: nat :: l < NUM_LEVELS ==> (n in builder.Listed(l) <==> Added(m[..i], l, n))
    {
      PrefixOk(m, i + 1);
      assert m[..i + 1][..i] == m[..i] && m[..i + 1] == m[..i] + [m[i]];
      NewsOnce(m[i], news[i]);
      builder.Apply(m[i], news[i]);
      forall l: nat, n: nat | l < NUM_LEVELS ensures n in builder.Listed(l) <==> Added(m[..i + 1], l, n) {
        AddedAppend(m[..i], m[i], l, n);
        NewsNumbers(m[i], news[i], l, n);
      }
    }
    assert m[..|m|] == m;
    files := builder.SaveTo();
  }

  lemma {:induction false} PrefixOk(m: seq<Edit>, i: nat)
    requires ManifestOk(m) && i <= |m|
    ensures ManifestOk(m[..i])
    decreases |m| - i
  {
    if i < |m| {
      PrefixOk(m, i + 1);
      assert m[..i + 1][..i] == m[..i];
    } else {
      assert m[..i] == m;
    }
  }

  lemma NewsOnce(e: Edit, news: seq<(nat, FileMeta)>)
    requires EditOk(e) && (forall p :: p in news <==> p in e.added)
    requires forall j, k :: 0 <= j < k < |news| ==> news[j] != news[k]
    ensures (set p | p in news) == e.added
    ensures forall j, k :: 0 <= j < k < |news| && news[j].0 == news[k].0 ==> news[j].1.number != news[k].1.number
  {
    forall j, k | 0 <= j < k < |news| && news[j].0 == news[k].0 ensures news[j].1.number != news[k].1.number {
      assert news[j] in news && news[k] in news;
    }
  }

  lemma NewsNumbers(e: Edit, news: seq<(nat, FileMeta)>, l: nat, n: nat)
    requires forall p :: p in news <==> p in e.added
    ensures n in Numbers(NewAt(news, l)) <==> exists p :: p in e.added && p.0 == l && p.1.number == n
  {
    if n in Numbers(NewAt(news, l)) {
      var f :| f in NewAt(news, l) && f.number == n;
      var p :| p in news && p.0 == l && p.1 == f;
    }
    if exists p :: p in e.added && p.0 == l && p.1.number == n {
      var p :| p in e.added && p.0 == l && p.1.number == n;
      assert p.1 in NewAt(news, l);
    }
  }

  // ----- Reachable manifests -----

  ghost predicate Traced(m: seq<Edit>, v: Version, next: nat) {
    && ManifestOk(m)
    && (forall l: nat, n: nat :: Added(m, l, n) ==> n < next)
    && (forall l: nat, f, k: nat :: 0 <= l < NUM_LEVELS && f in v[l] && Added(m, k, f.number) ==> k <= l)
  }

  ghost predicate ManifestInv(s: State) {
    && Traced(s.manifest, s.version, NextFileOf(s.manifest))
    && forall n :: Pending(s.work, n) ==> NextFileOf(s.manifest) <= n
  }

  lemma AppendOk(m: seq<Edit>, e: Edit)
    requires ManifestOk(m) && EditOk(e)
    requires forall p :: p in e.added ==> !Added(m, p.0, p.1.number)
    ensures ManifestOk(m + [e])
  {
    assert (m + [e])[..|m + [e]| - 1] == m;
  }

  /** Installing an edit whose files have unused numbers. */
  lemma FreshEditTraced(m: seq<Edit>, v: Version, next: nat, e: Edit, v': Version, next': nat)
    requires Traced(m, v, next) && EditOk(e) && next <= next'
    requires NumbersBelow(v, next)
    requires forall p :: p in e.added ==> next <= p.1.number < next'
    requires forall l, f :: 0 <= l < NUM_LEVELS && f in v'[l] ==> f in v[l] || (l, f) in e.added
    requires forall p, q :: p in e.added && q in e.added && p.1.number == q.1.number ==> p.0 == q.0
    ensures Traced(m + [e], v', next')
  {
    AppendOk(m, e);
    forall l: nat, n: nat | Added(m + [e], l, n) ensures n < next' {
      AddedAppend(m, e, l, n);
    }
    forall l: nat, f, k: nat | 0 <= l < NUM_LEVELS && f in v'[l] && Added(m + [e], k, f.number) ensures k <= l {
      AddedAppend(m, e, k, f.number);
    }
  }

  lemma MoveTraced(m: seq<Edit>, v: Version, next: nat, e: Edit, level: nat, file: FileMeta, next': nat)
    requires next <= next'
    requires Traced(m, v, next) && NumbersBelow(v, next) && NumbersUnique(v)
    requires InputsOk(v, level, {file}, {}) && e.deleted == {(level, file.number)} && e.added == {(level + 1, file)}
    ensures Traced(m + [e], Replaced(v, level, {file}, {}, {file}), next')
  {
    assert file in v[level];
    AppendOk(m, e);
    var v' := Replaced(v, level, {file}, {}, {file});
    forall l: nat, n: nat | Added(m + [e], l, n) ensures n < next' {
      AddedAppend(m, e, l, n);
    }
    forall l: nat, f, k: nat | 0 <= l < NUM_LEVELS && f in v'[l] && Added(m + [e], k, f.number) ensures k <= l {
      AddedAppend(m, e, k, f.number);
    }
  }

  lemma SnapshotTraced(v: Version, next: nat)
    requires NumbersUnique(v) && NumbersBelow(v, next)
    ensures Traced([SnapshotEdit(v)], v, next)
  {
    var e := SnapshotEdit(v);
    assert [] + [e] == [e];
    AppendOk([], e);
    forall l: nat, n: nat | Added([e], l, n) ensures exists f :: l < NUM_LEVELS && f in v[l] && f.number == n {
      AddedAppend([], e, l, n);
    }
  }

  lemma InstallKeepsManifest(s: State, step: Step)
    requires Inv(s) && ManifestInv(s) && Enabled(s, step) && (step.FlushInstall? || step.CompactInstall?)
    ensures ManifestInv(After(s, step))
  {
    hide DataInv, Durable, ReaderOk;
    if step.CompactInstall? {
      CompactKeepsManifest(s);
    } else {
      FlushKeepsManifest(s);
    }
  }

  lemma CompactKeepsManifest(s: State)
    requires Inv(s) && ManifestInv(s) && Enabled(s, CompactInstall)
    ensures ManifestInv(After(s, CompactInstall))
  {
    hide DataInv, Durable, ReaderOk;
    var s' := After(s, CompactInstall);
    var e := s'.manifest[|s.manifest|];
    ManifestAppend(s.manifest, e);
    var w := s.work;
    forall o | o in w.outs ensures Pending(w, o.number) {
    }
    FreshEditTraced(s.manifest, s.version, NextFileOf(s.manifest), e, s'.version, s.nextFile);
  }

  lemma FlushKeepsManifest(s: State)
    requires Inv(s) && ManifestInv(s) && Enabled(s, FlushInstall)
    ensures ManifestInv(After(s, FlushInstall))
  {
    hide DataInv, Durable, ReaderOk;
    var s' := After(s, FlushInstall);
    var e := s'.manifest[|s.manifest|];
    ManifestAppend(s.manifest, e);
    if s.work.table.Some? {
      assert Pending(s.work, s.work.table.value.number);
    }
    FreshEditTraced(s.manifest, s.version, NextFileOf(s.manifest), e, s'.version, s.nextFile);
  }

  lemma MoveKeepsManifest(s: State, level: nat, file: FileMeta)
    requires Inv(s) && ManifestInv(s) && Enabled(s, TrivialMove(level, file))
    ensures ManifestInv(After(s, TrivialMove(level, file)))
  {
    var s' := After(s, TrivialMove(level, file));
    var e := s'.manifest[|s.manifest|];
    ManifestAppend(s.manifest, e);
    MoveKeepsInv(s, level, file);
    assert s'.version == DataOf(s').version;
    MoveTraced(s.manifest, s.version, NextFileOf(s.manifest), e, level, file, s.nextFile);
  }

  lemma CrashKeepsManifest(s: State, r: Restart)
    requires Inv(s) && ManifestInv(s) && Enabled(s, Crash(r))
    ensures ManifestInv(After(s, Crash(r)))
  {
    var s' := Recovered(s, r);
    var order :| Durable(s, order);
    RestartChunks(s, r, order);
    RestartVersion(s, r, order);
    if r.save {
      var base := if r.freshManifest then [SnapshotEdit(s.version)] else s.manifest;
      var e := s'.manifest[|base|];
      assert s'.manifest == base + [e];
      SnapshotTraced(s.version, NextFileOf(s.manifest));
      RestartTraced(s, r, base, e);
    }
  }

  lemma RestartTraced(s: State, r: Restart, base: seq<Edit>, e: Edit)
    requires Traced(base, s.version, NextFileOf(s.manifest)) && NumbersBelow(s.version, NextFileOf(s.manifest))
    requires RestartOk(s, r) && e.deleted == {} && e.added == set f | f in r.files :: (0, f)
    ensures Traced(base + [e], s.version[0 := s.version[0] + FileSet(r.files)], r.nextFile)
  {
    forall l, f | 0 <= l < NUM_LEVELS && f in s.version[0 := s.version[0] + FileSet(r.files)][l]
      ensures f in s.version[l] || (l, f) in e.added
    {
    }
    FreshEditTraced(
      base, s.version, NextFileOf(s.manifest), e, s.version[0 := s.version[0] + FileSet(r.files)], r.nextFile);
  }

  lemma BeginKeepsManifest(s: State, step: Step)
    requires Counters(s) && ManifestInv(s) && Enabled(s, step)
    requires (step.FlushBegin? || step.FlushBeginEmpty? || step.CompactBegin?)
    ensures ManifestInv(After(s, step))
  {
  }

  lemma StepKeepsManifest(s: State, step: Step)
    requires Inv(s) && ManifestInv(s) && Enabled(s, step)
    ensures ManifestInv(After(s, step))
  {
    hide DataInv, Durable, ReaderOk, WorkOk, Traced;
    match step
    case FlushInstall => InstallKeepsManifest(s, step);
    case CompactInstall => InstallKeepsManifest(s, step);
    case TrivialMove(level, file) => MoveKeepsManifest(s, level, file);
    case Crash(r) => CrashKeepsManifest(s, r);
    case FlushBegin(_, _) => BeginKeepsManifest(s, step);
    case FlushBeginEmpty => BeginKeepsManifest(s, step);
    case CompactBegin(_, _, _, _, _, _) => BeginKeepsManifest(s, step);
    case _ =>
  }

  lemma InitialManifest()
    ensures ManifestInv(INITIAL)
  {
    var e := Edit(Some(3), Some(4), Some(0), {}, {});
    SnapshotTraced(EMPTY_VERSION, 0);
    FreshEditTraced([SnapshotEdit(EMPTY_VERSION)], EMPTY_VERSION, 0, e, EMPTY_VERSION, 4);
    assert INITIAL.manifest == [SnapshotEdit(EMPTY_VERSION)] + [e];
    InitialDurable();
  }

  /** The manifest of every reachable state is one that a single builder replays rightly. */
  lemma {:induction false} RunKeepsManifest(states: seq<State>, steps: seq<Step>, i: nat)
    requires IsRun(states, steps) && i <= |steps|
    ensures ManifestInv(states[i])
  {
    hide Inv, Enabled, After, ManifestInv;
    if i == 0 {
      InitialManifest();
    } else {
      RunKeepsManifest(states, steps, i - 1);
      RunKeepsInv(states, steps, i - 1);
      StepKeepsManifest(states[i - 1], steps[i - 1]);
    }
  }

  /** Recovery's file lists are those of the version that was current before the crash. */
  method RecoverFiles(ghost states: seq<State>, ghost steps: seq<Step>, m: seq<Edit>, news: seq<seq<(nat, FileMeta)>>)
    returns (files: seq<seq<FileMeta>>)
    requires IsRun(states, steps) && m == states[|steps|].manifest && ListsNews(news, m)
    ensures Lists(files, states[|steps|].version)
  {
    RunKeepsManifest(states, steps, |steps|);
    RunKeepsInv(states, steps, |steps|);
    files := ReplayManifest(m, news);
    OrderedLists(files, states[|steps|].version, states[|steps|].tables);
  }

  lemma OrderedLists(files: seq<seq<FileMeta>>, v: Version, tables: map<nat, seq<Entry>>)
    requires |files| == NUM_LEVELS && TablesOk(v, tables) && LevelsDisjoint(v)
    requires forall l :: 0 <= l < NUM_LEVELS ==> InOrder(files[l]) && Files(files[l]) == v[l]
    ensures Lists(files, v)
  {
    DistinctInOrder(files[0]);
    forall l, i | 0 <= l < NUM_LEVELS && 0 <= i < |files[l]| ensures Ordered(files[l][i]) {
      assert files[l][i] in Files(files[l]);
      FileEndsHeld(files[l][i], tables[files[l][i].number]);
    }
    forall l, i, j | 1 <= l < NUM_LEVELS && 0 <= i < j < |files[l]|
      ensures Less(files[l][i].largest, files[l][j].smallest)
    {
      var f, g := files[l][i], files[l][j];
      assert f in Files(files[l]) && g in Files(files[l]) && BySmallestKey(f, g) && Ordered(f) && Ordered(g);
      assert Apart(f, g);
    }
  }

  lemma DistinctInOrder(files: seq<FileMeta>)
    requires InOrder(files)
    ensures Distinct(files)
  {
    forall i, j | 0 <= i < j < |files| ensures files[i] != files[j] {
      assert BySmallestKey(files[i], files[j]);
    }
  }
}
