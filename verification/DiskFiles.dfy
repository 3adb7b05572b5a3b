/** The files that a crash leaves, byte by byte: logs of write batches and a manifest of version
    edits, the last record of one of them perhaps cut short. */
module DiskFiles {
  import opened Keys
  import opened Coding
  import opened Store
  import opened Engine
  import opened InternalKeys
  import WriteBatch
  import EditCodec
  import opened LogFormat
  import opened LogReader
  import opened BatchLog
  import opened LogTakeover
  import opened ManifestReplay

  /** What the bytes on disk are read with: the checksum, the user comparator's order and its name. */
  datatype Reading = Reading(crc: Crc, rank: Rank, comparator: Bytes)

  // ----- Records of a log file -----

  /** A file with the records `raw`, and behind them perhaps a front part of one more. */
  ghost predicate Torn(crc: Crc, file: Bytes, raw: seq<Bytes>) {
    || file == FileOf(crc, raw)
    || exists extra, m :: CutIn(crc, file, raw, extra, m)
  }

  ghost predicate CutIn(crc: Crc, file: Bytes, raw: seq<Bytes>, extra: Bytes, m: nat) {
    var whole := FileOf(crc, raw + [extra]);
    |FileOf(crc, raw)| <= m < |whole| && file == whole[..m]
  }

  lemma {:induction false} FileGrows(crc: Crc, raw: seq<Bytes>, i: nat, j: nat)
    requires i <= j <= |raw|
    ensures |FileOf(crc, raw[..i])| <= |FileOf(crc, raw[..j])|
    decreases j
  {
    hide Appended;
    if i < j {
      FileGrows(crc, raw, i, j - 1);
      FileOfNext(crc, raw, j - 1);
    }
  }

  /** What is read back is the records that are whole, and nothing is reported. */
  lemma TornReadsBack(crc: Crc, file: Bytes, raw: seq<Bytes>)
    requires Torn(crc, file, raw)
    ensures ReadFrom(crc, file, 0) == (raw, [])
  {
    hide FileOf, ReadFrom, Whole;
    if file == FileOf(crc, raw) {
      LogReadsBack(crc, raw);
    } else {
      var extra, m :| CutIn(crc, file, raw, extra, m);
      var all := raw + [extra];
      assert all[..|raw|] == raw && all[..|all|] == all;
      TornLogReadsBack(crc, all, m);
      var k := Whole(crc, all, m);
      if k < |raw| {
        FileGrows(crc, all, k + 1, |raw|);
      }
    }
  }

  // ----- Logs -----

  function OpOf(rank: Rank, u: WriteBatch.Update): Op {
    match u
    case Put(key, value) => Op.Put(rank(key), value)
    case Delete(key) => Op.Delete(rank(key))
  }

  function RecordOf(rank: Rank, b: Logged): LogRecord {
    LogRecord(b.sequence, seq(|b.updates|, i requires 0 <= i < |b.updates| => OpOf(rank, b.updates[i])))
  }

  function RecordsOf(rank: Rank, batches: seq<Logged>): seq<LogRecord> {
    seq(|batches|, i requires 0 <= i < |batches| => RecordOf(rank, batches[i]))
  }

  /** What recovery makes of a record: its updates up to the first that is malformed; nothing of a
      record that is too small to be a batch. */
  function Replayed(rank: Rank, record: Bytes): seq<LogRecord> {
    if |record| < WriteBatch.HEADER then []
    else [RecordOf(rank, Logged(DecodeFixed64(record[..8]), WriteBatch.ReadUpdates(record[WriteBatch.HEADER..]).0))]
  }

  function AllReplayed(rank: Rank, raw: seq<Bytes>): seq<LogRecord> {
    if raw == [] then [] else AllReplayed(rank, raw[..|raw| - 1]) + Replayed(rank, raw[|raw| - 1])
  }

  lemma {:induction false} BatchesReplayed(rank: Rank, batches: seq<Logged>)
    requires forall b :: b in batches ==> WriteBatch.Fits(b.sequence, b.updates)
    ensures AllReplayed(rank, Records(batches)) == RecordsOf(rank, batches)
  {
    hide RecordOf, Replayed, AllReplayed, WriteBatch.Fits, WriteBatch.RepOf;
    if batches == [] {
      NoneReplayed(rank);
    } else {
      var n := |batches| - 1;
      var front, last := batches[..n], batches[n];
      BatchesReplayed(rank, front);
      NextReplayed(rank, Records(batches));
      assert Records(batches)[..n] == Records(front);
      OneReplayed(rank, last);
      assert RecordsOf(rank, batches) == RecordsOf(rank, front) + [RecordOf(rank, last)];
    }
  }

  lemma NoneReplayed(rank: Rank)
    ensures AllReplayed(rank, []) == []
  {
  }

  lemma NextReplayed(rank: Rank, raw: seq<Bytes>)
    requires raw != []
    ensures AllReplayed(rank, raw) == AllReplayed(rank, raw[..|raw| - 1]) + Replayed(rank, raw[|raw| - 1])
  {
  }

  lemma OneReplayed(rank: Rank, b: Logged)
    requires WriteBatch.Fits(b.sequence, b.updates)
    ensures Replayed(rank, WriteBatch.RepOf(b.sequence, b.updates)) == [RecordOf(rank, b)]
  {
    hide DecodeFixed64, DecodeFixed32, WriteBatch.ReadUpdates, WriteBatch.RepOf;
    BatchBack(b);
  }

  /** A log file that holds these records. */
  ghost predicate LogFile(rd: Reading, file: Bytes, records: seq<LogRecord>) {
    exists batches :: LogOf(rd, file, records, batches)
  }

  ghost predicate LogOf(rd: Reading, file: Bytes, records: seq<LogRecord>, batches: seq<Logged>) {
    && Torn(rd.crc, file, Records(batches)) && RecordsOf(rd.rank, batches) == records
    && forall b :: b in batches ==> WriteBatch.Fits(b.sequence, b.updates)
  }

  /** The records of a log, as recovery reads them. */
  method ReadRecords(rd: Reading, file: Bytes) returns (records: seq<LogRecord>)
    ensures records == AllReplayed(rd.rank, ReadFrom(rd.crc, file, 0).0)
    ensures forall rs :: LogFile(rd, file, rs) ==> records == rs
  {
    hide ReadFrom, WriteBatch.ReadUpdates, RecordOf;
    var raw, drops := ReadLog(rd.crc, file);
    records := [];
    for i := 0 to |raw|
      invariant records == AllReplayed(rd.rank, raw[..i])
    {
      assert raw[..i + 1][..i] == raw[..i];
      if |raw[i]| < WriteBatch.HEADER {
        // reported as corruption
      } else {
        var batch := new WriteBatch.Batch.Contents(raw[i]);
        var ok, handed := batch.Iterate();
        records := records + [RecordOf(rd.rank, Logged(DecodeFixed64(raw[i][..8]), handed))];
      }
    }
    assert raw[..|raw|] == raw;
    forall rs | LogFile(rd, file, rs) ensures records == rs {
      LogIsRead(rd, file, rs);
    }
  }

  lemma LogIsRead(rd: Reading, file: Bytes, records: seq<LogRecord>)
    requires LogFile(rd, file, records)
    ensures AllReplayed(rd.rank, ReadFrom(rd.crc, file, 0).0) == records
  {
    hide Torn, ReadFrom, AllReplayed;
    var batches :| LogOf(rd, file, records, batches);
    TornReadsBack(rd.crc, file, Records(batches));
    BatchesReplayed(rd.rank, batches);
  }

  // ----- A log that is taken over -----

  lemma RecordsAppend(a: seq<Logged>, b: seq<Logged>)
    ensures Records(a + b) == Records(a) + Records(b)
  {
    hide WriteBatch.RepOf;
  }

  /** Batches that are written behind a mere filling come back with the others. */
  lemma TakenOverLogKeeps(
      rd: Reading, batches: seq<Logged>, extra: Bytes, b: nat, torn: Bytes, later: seq<Logged>, taken: Bytes)
    requires IsTorn(rd.crc, Records(batches), extra, b, torn) && taken == Continued(rd.crc, torn, Records(later))
    requires IsFilling(|FileOf(rd.crc, Records(batches))| % BLOCK_SIZE, extra, b)
    requires forall x: Logged :: x in batches + later ==> WriteBatch.Fits(x.sequence, x.updates)
    ensures AllReplayed(rd.rank, ReadFrom(rd.crc, taken, 0).0) == RecordsOf(rd.rank, batches + later)
  {
    hide IsTorn, ReadFrom, FileOf, Continued, AllReplayed, RecordsOf, WriteBatch.Fits, WriteBatch.RepOf;
    var raw := Records(batches);
    FillingReadsBack(rd.crc, raw, extra, b, torn, Records(later), taken);
    RecordsAppend(batches, later);
    BatchesReplayed(rd.rank, batches + later);
  }

  /** Batches that are written behind a piece with a whole header, in the same block, are lost
      although their writers were told of success. */
  lemma TakenOverLogLoses(
      rd: Reading, batches: seq<Logged>, extra: Bytes, b: nat, torn: Bytes, later: seq<Logged>, taken: Bytes)
    requires IsTorn(rd.crc, Records(batches), extra, b, torn) && taken == Continued(rd.crc, torn, Records(later))
    requires BreaksInFirst(rd.crc, Records(batches), extra, b) && ChecksumTells(rd.crc, Records(batches), extra, taken)
    requires
      var start := |FileOf(rd.crc, Records(batches))|;
      |taken| < BlockEnd(start + |Trailer(start % BLOCK_SIZE)|)
    requires forall x :: x in batches ==> WriteBatch.Fits(x.sequence, x.updates)
    ensures AllReplayed(rd.rank, ReadFrom(rd.crc, taken, 0).0) == RecordsOf(rd.rank, batches)
  {
    hide IsTorn, BreaksInFirst, ChecksumTells, ReadFrom, FileOf, Continued, AllReplayed, WriteBatch.Fits;
    AppendedAreLost(rd.crc, Records(batches), extra, b, torn, Records(later), taken);
    BatchesReplayed(rd.rank, batches);
  }

  // ----- The manifest -----

  /** The key that the bytes of a stored key stand for. */
  function KeyIn(rank: Rank, key: Bytes): InternalKey {
    var k := ParseInternalKey(rank, key);
    if k.Some? then k.value else InternalKey(rank(UserPart(key)), Tag(key) / 256, Value)
  }

  function FileIn(rank: Rank, f: EditCodec.NewFile): (nat, FileMeta) {
    (f.level, FileMeta(f.number, f.size, KeyIn(rank, f.smallest), KeyIn(rank, f.largest)))
  }

  function FilesIn(rank: Rank, fs: seq<EditCodec.NewFile>): seq<(nat, FileMeta)> {
    seq(|fs|, i requires 0 <= i < |fs| => FileIn(rank, fs[i]))
  }

  /** What an edit changes. */
  function EditOf(rank: Rank, e: EditCodec.Edit): Edit {
    Edit(e.logNumber, e.nextFileNumber, e.lastSequence,
         set d | d in e.deletedFiles :: (d.level, d.number), set p | p in FilesIn(rank, e.newFiles))
  }

  /** An edit with its deleted files in the order in which they were written. */
  datatype Written = Written(edit: EditCodec.Edit, order: seq<EditCodec.DeletedFile>) {
    ghost predicate Ok(rd: Reading) {
      && EditCodec.Fits(edit) && EditCodec.Elements(order) == edit.deletedFiles
      && (edit.comparator.Some? ==> edit.comparator.value == rd.comparator)
      && forall i, j :: 0 <= i < j < |edit.newFiles| ==>
        FileIn(rd.rank, edit.newFiles[i]) != FileIn(rd.rank, edit.newFiles[j])
    }

    function Record(): Bytes {
      EditCodec.FieldsBytes(EditCodec.FieldsOf(edit, order))
    }
  }

  function EditRecords(ws: seq<Written>): seq<Bytes> {
    seq(|ws|, i requires 0 <= i < |ws| => ws[i].Record())
  }

  function EditsOf(rank: Rank, ws: seq<Written>): seq<Edit> {
    seq(|ws|, i requires 0 <= i < |ws| => EditOf(rank, ws[i].edit))
  }

  /** Where compactions of each level ended, after some more edits said so. */
  function WithPointers(
      rank: Rank, before: seq<Option<InternalKey>>, ps: seq<EditCodec.CompactPointer>): (r: seq<Option<InternalKey>>)
    ensures |r| == |before|
  {
    if ps == [] then before
    else
      var r := WithPointers(rank, before, ps[..|ps| - 1]);
      var p := ps[|ps| - 1];
      if p.level < |r| then r[p.level := Some(KeyIn(rank, p.key))] else r
  }

  function PointersAfter(rank: Rank, edits: seq<EditCodec.Edit>): (r: seq<Option<InternalKey>>)
    ensures |r| == NUM_LEVELS
  {
    if edits == [] then seq(NUM_LEVELS, _ => None)
    else WithPointers(rank, PointersAfter(rank, edits[..|edits| - 1]), edits[|edits| - 1].compactPointers)
  }

  function EditsIn(ws: seq<Written>): seq<EditCodec.Edit> {
    seq(|ws|, i requires 0 <= i < |ws| => ws[i].edit)
  }

  ghost predicate ManifestFile(rd: Reading, file: Bytes, manifest: seq<Edit>) {
    exists ws :: ManifestOf(rd, file, manifest, ws)
  }

  ghost predicate ManifestOf(rd: Reading, file: Bytes, manifest: seq<Edit>, ws: seq<Written>) {
    && Torn(rd.crc, file, EditRecords(ws)) && EditsOf(rd.rank, ws) == manifest
    && forall w :: w in ws ==> w.Ok(rd)
  }

  /** What decoding a record gives: the edit; none if it is malformed or names another comparator. */
  ghost function Decoded(rd: Reading, record: Bytes): Option<EditCodec.Edit> {
    var r := EditCodec.ReadFields(record);
    var e := EditCodec.ApplyAll(EditCodec.FRESH, r.0);
    if r.1 && (e.comparator.Some? ==> e.comparator.value == rd.comparator) then Some(e) else None
  }

  lemma WrittenIsDecoded(rd: Reading, w: Written)
    requires w.Ok(rd)
    ensures Decoded(rd, w.Record()) == Some(w.edit)
  {
    hide EditCodec.ReadFields, EditCodec.ApplyAll, EditCodec.FieldsBytes, EditCodec.FieldsOf, EditCodec.Fits;
    EditCodec.EditBack(EditCodec.FRESH, w.edit, w.order);
    assert EditCodec.Cleared(EditCodec.FRESH) == EditCodec.FRESH;
    assert [] + w.edit.compactPointers == w.edit.compactPointers;
  }

  /** The edits of a manifest, and the new files of each as its vector lists them; none if a record is malformed. */
  method ReadManifest(rd: Reading, file: Bytes)
    returns (manifest: Option<seq<Edit>>, news: seq<seq<(nat, FileMeta)>>, pointers: seq<Option<InternalKey>>)
    ensures manifest.Some? <==> forall i :: 0 <= i < |ReadFrom(rd.crc, file, 0).0| ==>
        Decoded(rd, ReadFrom(rd.crc, file, 0).0[i]).Some?
    ensures forall m :: ManifestFile(rd, file, m) ==> manifest == Some(m) && ListsNews(news, m)
    ensures |pointers| == NUM_LEVELS
    ensures forall m, ws :: ManifestOf(rd, file, m, ws) ==> pointers == PointersAfter(rd.rank, EditsIn(ws))
  {
    hide ReadFrom, Decoded, EditOf, FilesIn, ListsNews, ManifestOf, EditsIn, WithPointers;
    var raw, drops := ReadLog(rd.crc, file);
    var edits: seq<Edit> := [];
    news, pointers := [], seq(NUM_LEVELS, _ => None);
    ghost var decoded: seq<EditCodec.Edit> := [];
    for i := 0 to |raw|
      invariant |decoded| == |edits| == |news| == i
      invariant forall j :: 0 <= j < i ==> Decoded(rd, raw[j]) == Some(decoded[j])
      invariant forall j :: 0 <= j < i ==> edits[j] == EditOf(rd.rank, decoded[j])
      invariant forall j :: 0 <= j < i ==> news[j] == FilesIn(rd.rank, decoded[j].newFiles)
      invariant pointers == PointersAfter(rd.rank, decoded)
    {
      var edit, files, ps;
      ghost var e;
      edit, files, ps, e := ReadEdit(rd, raw[i]);
      if edit.None? {
        NotAManifest(rd, file, raw, i);
        return None, [], pointers;
      }
      PointersNext(rd.rank, decoded, e);
      edits, news, decoded := edits + [edit.value], news + [files], decoded + [e];
      pointers := WithPointers(rd.rank, pointers, ps);
    }
    manifest := Some(edits);
    AllIsRead(rd, file, raw, decoded, edits, news);
  }

  /** One edit, with its new files and its compaction pointers as lists. */
  method ReadEdit(rd: Reading, record: Bytes)
    returns (
      edit: Option<Edit>, files: seq<(nat, FileMeta)>, ps: seq<EditCodec.CompactPointer>, ghost e: EditCodec.Edit)
    ensures if edit.None? then Decoded(rd, record) == None
            else
              && Decoded(rd, record) == Some(e) && edit.value == EditOf(rd.rank, e)
              && files == FilesIn(rd.rank, e.newFiles) && ps == e.compactPointers
  {
    hide EditCodec.ReadFields, EditCodec.ApplyAll;
    var v := new EditCodec.VersionEdit();
    var ok := v.DecodeFrom(record);
    e := v.Value();
    assert EditCodec.Cleared(EditCodec.FRESH) == EditCodec.FRESH;
    if !ok || (v.comparator.Some? && v.comparator.value != rd.comparator) {
      return None, [], [], e;
    }
    files, ps := FilesIn(rd.rank, v.newFiles), v.compactPointers;
    edit := Some(Edit(v.logNumber, v.nextFileNumber, v.lastSequence,
                      set d | d in v.deletedFiles :: (d.level, d.number), set p | p in files));
  }

  lemma PointersNext(rank: Rank, edits: seq<EditCodec.Edit>, e: EditCodec.Edit)
    ensures PointersAfter(rank, edits + [e]) == WithPointers(rank, PointersAfter(rank, edits), e.compactPointers)
  {
    hide WithPointers;
    assert (edits + [e])[..|edits + [e]| - 1] == edits;
  }

  lemma AllIsRead(
      rd: Reading, file: Bytes, raw: seq<Bytes>, decoded: seq<EditCodec.Edit>, edits: seq<Edit>,
      news: seq<seq<(nat, FileMeta)>>)
    requires raw == ReadFrom(rd.crc, file, 0).0 && |decoded| == |raw| == |edits| == |news|
    requires forall j :: 0 <= j < |raw| ==> Decoded(rd, raw[j]) == Some(decoded[j])
    requires forall j :: 0 <= j < |raw| ==> edits[j] == EditOf(rd.rank, decoded[j])
    requires forall j :: 0 <= j < |raw| ==> news[j] == FilesIn(rd.rank, decoded[j].newFiles)
    ensures forall m :: ManifestFile(rd, file, m) ==> edits == m && ListsNews(news, m)
    ensures forall m, ws :: ManifestOf(rd, file, m, ws) ==> decoded == EditsIn(ws)
  {
    hide ReadFrom, Decoded, EditOf, FilesIn, ListsNews, ManifestOf, EditsIn;
    forall m | ManifestFile(rd, file, m) ensures edits == m && ListsNews(news, m) {
      var ws: seq<Written> :| ManifestOf(rd, file, m, ws);
      ManifestIsRead(rd, file, m, ws, raw, decoded, edits, news);
    }
    forall m, ws | ManifestOf(rd, file, m, ws) ensures decoded == EditsIn(ws) {
      ManifestIsRead(rd, file, m, ws, raw, decoded, edits, news);
    }
  }

  lemma NotAManifest(rd: Reading, file: Bytes, raw: seq<Bytes>, i: nat)
    requires raw == ReadFrom(rd.crc, file, 0).0 && i < |raw| && Decoded(rd, raw[i]).None?
    ensures forall m, ws :: !ManifestOf(rd, file, m, ws)
  {
    forall m, ws ensures !ManifestOf(rd, file, m, ws) {
      NotThese(rd, file, raw, i, m, ws);
    }
  }

  lemma NotThese(rd: Reading, file: Bytes, raw: seq<Bytes>, i: nat, m: seq<Edit>, ws: seq<Written>)
    requires raw == ReadFrom(rd.crc, file, 0).0 && i < |raw| && Decoded(rd, raw[i]).None?
    ensures !ManifestOf(rd, file, m, ws)
  {
    hide Torn, ReadFrom, Decoded;
    if ManifestOf(rd, file, m, ws) {
      TornReadsBack(rd.crc, file, EditRecords(ws));
      assert ws[i] in ws;
      WrittenIsDecoded(rd, ws[i]);
    }
  }

  lemma ManifestIsRead(
      rd: Reading, file: Bytes, manifest: seq<Edit>, ws: seq<Written>, raw: seq<Bytes>, decoded: seq<EditCodec.Edit>,
      edits: seq<Edit>, news: seq<seq<(nat, FileMeta)>>)
    requires ManifestOf(rd, file, manifest, ws) && raw == ReadFrom(rd.crc, file, 0).0
    requires |decoded| == |raw| == |edits| == |news|
    requires forall j :: 0 <= j < |raw| ==> Decoded(rd, raw[j]) == Some(decoded[j])
    requires forall j :: 0 <= j < |raw| ==> edits[j] == EditOf(rd.rank, decoded[j])
    requires forall j :: 0 <= j < |raw| ==> news[j] == FilesIn(rd.rank, decoded[j].newFiles)
    ensures edits == manifest && ListsNews(news, manifest) && decoded == EditsIn(ws)
  {
    hide Torn, ReadFrom, Decoded, EditCodec.Fits;
    TornReadsBack(rd.crc, file, EditRecords(ws));
    forall j | 0 <= j < |raw| ensures decoded[j] == ws[j].edit && ws[j].Ok(rd) {
      assert ws[j] in ws;
      WrittenIsDecoded(rd, ws[j]);
    }
  }

  // ----- The disk as a whole -----

  /** The logs and the manifest of a state, as bytes. */
  ghost predicate OnDisk(rd: Reading, s: State, logs: map<nat, Bytes>, manifest: Bytes) {
    && logs.Keys == s.logs.Keys
    && (forall n :: n in logs ==> LogFile(rd, logs[n], s.logs[n]))
    && ManifestFile(rd, manifest, s.manifest)
  }

  /** A front part of what appending a record writes leaves the records before, or those and the new one. */
  lemma PartlyAppended(crc: Crc, raw: seq<Bytes>, extra: Bytes, m: nat)
    requires |FileOf(crc, raw)| <= m <= |FileOf(crc, raw + [extra])|
    ensures
      var whole := FileOf(crc, raw + [extra]);
      if m == |whole| then Torn(crc, whole[..m], raw + [extra]) else Torn(crc, whole[..m], raw)
  {
    var whole := FileOf(crc, raw + [extra]);
    if m == |whole| {
      assert whole[..m] == whole;
    } else {
      assert CutIn(crc, whole[..m], raw, extra, m);
    }
  }

  /** A crash while a group of updates is being logged: however much of the record has reached the
      disk, the disk is the one before the write or the one after it. */
  lemma CrashInWrite(
      rd: Reading, s: State, ops: seq<Op>, batches: seq<Logged>, b: Logged, m: nat, logs: map<nat, Bytes>,
      manifest: Bytes)
    requires s.logFile in s.logs && Enabled(s, Write(ops)) && s.logFile in logs
    requires RecordsOf(rd.rank, batches) == s.logs[s.logFile]
    requires RecordOf(rd.rank, b) == LogRecord(s.lastSequence + 1, ops)
    requires forall x: Logged :: x in batches + [b] ==> WriteBatch.Fits(x.sequence, x.updates)
    requires |FileOf(rd.crc, Records(batches))| <= m <= |FileOf(rd.crc, Records(batches + [b]))|
    requires logs[s.logFile] == FileOf(rd.crc, Records(batches + [b]))[..m]
    requires logs.Keys == s.logs.Keys && forall n :: n in logs && n != s.logFile ==> LogFile(rd, logs[n], s.logs[n])
    requires ManifestFile(rd, manifest, s.manifest)
    ensures OnDisk(rd, s, logs, manifest) || OnDisk(rd, After(s, Write(ops)), logs, manifest)
  {
    hide Torn, FileOf, ManifestFile, RecordOf, WriteBatch.Fits, WriteBatch.RepOf, Enabled;
    var file := logs[s.logFile];
    assert Records(batches + [b]) == Records(batches) + [WriteBatch.RepOf(b.sequence, b.updates)];
    PartlyAppended(rd.crc, Records(batches), WriteBatch.RepOf(b.sequence, b.updates), m);
    if Torn(rd.crc, file, Records(batches)) {
      assert LogOf(rd, file, s.logs[s.logFile], batches);
    } else {
      assert RecordsOf(rd.rank, batches + [b]) == RecordsOf(rd.rank, batches) + [RecordOf(rd.rank, b)];
      assert LogOf(rd, file, s.logs[s.logFile] + [LogRecord(s.lastSequence + 1, ops)], batches + [b]);
    }
  }

  /** A step that installs a new version: all that it writes is one record of the manifest. */
  predicate Installs(step: Step) {
    step.FlushInstall? || step.CompactInstall? || step.TrivialMove?
  }

  lemma InstallAppends(s: State, step: Step) returns (e: Edit)
    requires s.logFile in s.logs && Enabled(s, step) && Installs(step)
    ensures After(s, step).logs == s.logs && After(s, step).tables == s.tables
    ensures After(s, step).manifest == s.manifest + [e]
  {
    hide Enabled, ApplyEdit;
    e := After(s, step).manifest[|s.manifest|];
  }

  /** A crash while an edit is being recorded: the version is installed or it is not. */
  lemma CrashInInstall(
      rd: Reading, s: State, step: Step, ws: seq<Written>, w: Written, m: nat, logs: map<nat, Bytes>, manifest: Bytes)
    requires s.logFile in s.logs && Enabled(s, step) && Installs(step)
    requires EditsOf(rd.rank, ws) == s.manifest && s.manifest + [EditOf(rd.rank, w.edit)] == After(s, step).manifest
    requires forall x: Written :: x in ws + [w] ==> x.Ok(rd)
    requires |FileOf(rd.crc, EditRecords(ws))| <= m <= |FileOf(rd.crc, EditRecords(ws + [w]))|
    requires manifest == FileOf(rd.crc, EditRecords(ws + [w]))[..m]
    requires logs.Keys == s.logs.Keys && forall n :: n in logs ==> LogFile(rd, logs[n], s.logs[n])
    ensures OnDisk(rd, s, logs, manifest) || OnDisk(rd, After(s, step), logs, manifest)
  {
    hide Torn, FileOf, LogFile, EditOf, Written.Ok, Written.Record, Enabled, After;
    var e := InstallAppends(s, step);
    assert EditRecords(ws + [w]) == EditRecords(ws) + [w.Record()];
    PartlyAppended(rd.crc, EditRecords(ws), w.Record(), m);
    if Torn(rd.crc, manifest, EditRecords(ws)) {
      assert ManifestOf(rd, manifest, s.manifest, ws);
    } else {
      assert EditsOf(rd.rank, ws + [w]) == EditsOf(rd.rank, ws) + [EditOf(rd.rank, w.edit)];
      assert ManifestOf(rd, manifest, After(s, step).manifest, ws + [w]);
    }
  }
}
