/** The bytes on disk, written out: what a reader and a writer agree on between themselves, files that
    other programs wrote have to meet as well. */
module DiskLayout {
  import opened Keys
  import opened Coding
  import LogFormat
  import WriteBatch
  import InternalKeys
  import BlockFormat
  import BlockBuilder
  import FilterBlock
  import EditCodec

  lemma SmallVarint(n: nat)
    requires n < 128
    ensures EncodeVarint(n) == [n as Byte]
  {
  }

  lemma SmallFixed(n: nat)
    requires n < 256
    ensures EncodeFixed32(n) == [n as Byte, 0, 0, 0] && EncodeFixed64(n) == [n as Byte, 0, 0, 0, 0, 0, 0, 0]
  {
    assert EncodeFixed64(n) == [n as Byte, 0, 0, 0] + [0, 0, 0, 0];
  }

  /** A log record that fits into its block: four bytes of checksum and two of length, little-endian, the
      type 1, and the data. */
  lemma LogRecord(crc: LogFormat.Crc, data: Bytes)
    requires |data| <= 32768 - 7
    ensures
      var file := LogFormat.FileOf(crc, [data]);
      && |file| == 7 + |data| && LittleEndian(file[..4]) == crc(1, data) % TWO32
      && file[4] as nat + 256 * (file[5] as nat) == |data| && file[6] == 1 && file[7..] == data
  {
    hide EncodeFixed32, LittleEndian;
    var file := LogFormat.FileOf(crc, [data]);
    assert [data][..0] == [];
    assert LogFormat.FileOf(crc, []) == [];
    assert file == LogFormat.Emit(crc, 0, data, true);
    assert data[..|data|] == data;
    assert file == LogFormat.Header(crc, 1, data) + data;
    Fixed32Bytes(crc(1, data) % TWO32);
    assert file[..4] == EncodeFixed32(crc(1, data) % TWO32);
  }

  /** A record that does not fit begins with a fragment of type 2 that fills the block, and goes on in
      the next with one of type 3 or 4. */
  lemma LogFragments(crc: LogFormat.Crc, data: Bytes)
    requires 32768 - 7 < |data|
    ensures
      var file := LogFormat.FileOf(crc, [data]);
      && |file| > 32768 + 7 && file[6] == 2 && file[7..32768] == data[..32761]
      && file[32768 + 6] == if |data| - 32761 <= 32761 then 4 else 3
  {
    hide EncodeFixed32;
    var rest := data[32761..];
    assert [data][..0] == [];
    assert LogFormat.FileOf(crc, []) == [];
    assert LogFormat.FileOf(crc, [data]) == LogFormat.Emit(crc, 0, data, true);
    var first := LogFormat.Fragment(crc, 0, data, true);
    var second := LogFormat.Emit(crc, LogFormat.BLOCK_SIZE, rest, false);
    assert data[..32761] != data;
    assert first == LogFormat.Header(crc, 2, data[..32761]) + data[..32761];
    LogFormat.EmitAtBlockEnd(crc, rest, false);
    assert LogFormat.FileOf(crc, [data]) == first + second;
    FragmentBegins(crc, rest);
  }

  lemma FragmentBegins(crc: LogFormat.Crc, data: Bytes)
    requires data != []
    ensures
      var b := LogFormat.Emit(crc, 0, data, false);
      |b| > 7 && b[6] == if |data| <= 32761 then 4 else 3
  {
    hide EncodeFixed32;
    var n := LogFormat.FragmentLength(0, data);
    assert (data[..n] == data) == (n == |data|);
    var f := LogFormat.Fragment(crc, 0, data, false);
    assert LogFormat.Emit(crc, 0, data, false)[..|f|] == f;
    assert f[6] == if |data| <= 32761 then 4 else 3;
  }

  /** A block's end in which no header fits is filled with zeros. */
  lemma LogTrailer(offset: nat)
    requires offset <= 32768
    ensures LogFormat.Trailer(offset) == if 32768 - offset < 7 then seq(32768 - offset, _ => 0) else []
  {
  }

  lemma UpdateLayout(k: Byte, v: Byte)
    ensures WriteBatch.UpdateBytes(WriteBatch.Update.Put([k], [v])) == [1, 1, k, 1, v]
    ensures WriteBatch.UpdateBytes(WriteBatch.Update.Delete([k])) == [0, 1, k]
  {
    SmallVarint(1);
    hide EncodeVarint;
  }

  /** A batch: eight bytes of sequence number, four of count, then the updates, 1 for a value and 0 for a
      deletion. */
  lemma TwoUpdates(k: Byte, v: Byte, l: Byte)
    ensures WriteBatch.RepOf(5, [WriteBatch.Update.Put([k], [v]), WriteBatch.Update.Delete([l])])
         == [5, 0, 0, 0, 0, 0, 0, 0] + [2, 0, 0, 0] + [1, 1, k, 1, v] + [0, 1, l]
  {
    var us := [WriteBatch.Update.Put([k], [v]), WriteBatch.Update.Delete([l])];
    SmallFixed(5);
    SmallFixed(2);
    UpdateLayout(k, v);
    UpdateLayout(l, v);
    hide WriteBatch.UpdateBytes, EncodeFixed32, EncodeFixed64;
    assert us[..1] == [us[0]] && us[..1][..0] == [];
    assert WriteBatch.UpdatesBytes(us[..1]) == [1, 1, k, 1, v];
    assert WriteBatch.UpdatesBytes(us) == [1, 1, k, 1, v] + [0, 1, l];
    var head: Bytes := [5, 0, 0, 0, 0, 0, 0, 0] + [2, 0, 0, 0];
    assert head + ([1, 1, k, 1, v] + [0, 1, l]) == head + [1, 1, k, 1, v] + [0, 1, l];
  }

  /** An internal key: the user key, the type, and seven bytes of sequence number. */
  lemma KeyWithTag(user: Bytes)
    ensures InternalKeys.AppendInternalKey(user, 3, Value) == user + [1, 3, 0, 0, 0, 0, 0, 0]
    ensures InternalKeys.AppendInternalKey(user, 3, Deletion) == user + [0, 3, 0, 0, 0, 0, 0, 0]
  {
    assert EncodeFixed64(3 * 256 + 1) == [1, 3, 0, 0] + [0, 0, 0, 0];
    assert EncodeFixed64(3 * 256) == [0, 3, 0, 0] + [0, 0, 0, 0];
  }

  /** A block entry: how much of the key is that of the key before, how much is not, the length of the
      value, the rest of the key, and the value. */
  lemma BlockEntry(shared: nat, key: Bytes, value: Bytes)
    requires shared <= |key| < 128 && |value| < 128
    ensures BlockFormat.EntryBytes(shared, key, value)
         == [shared as Byte, (|key| - shared) as Byte, |value| as Byte] + key[shared..] + value
  {
    SmallVarint(shared);
    SmallVarint(|key| - shared);
    SmallVarint(|value|);
  }

  /** Behind the entries of a block stand four bytes for each restart point, and four for their number. */
  lemma BlockEnd(block: Bytes, lay: BlockBuilder.Layout, restarts: seq<nat>, r: nat)
    requires BlockBuilder.IsBlock(block, lay, restarts) && r < |restarts| < TWO32 && restarts[r] < TWO32
    ensures
      var n := |block| - 4 - 4 * |restarts|;
      && n >= 0 && LittleEndian(block[|block| - 4..]) == |restarts|
      && LittleEndian(block[n + 4 * r..n + 4 * r + 4]) == restarts[r]
  {
    hide EncodeFixed32, Fixed32s, LittleEndian, BlockBuilder.Encodes, BlockBuilder.RestartsOk;
    var data: Bytes :| BlockBuilder.Encodes(data, lay) && BlockBuilder.RestartsOk(lay, restarts)
                       && block == data + Fixed32s(restarts) + EncodeFixed32(|restarts|);
    Fixed32Bytes(|restarts|);
    Fixed32Bytes(restarts[r]);
    Fixed32sAt(restarts, r);
    MiddleSlice(data, Fixed32s(restarts), EncodeFixed32(|restarts|), 4 * r, 4 * r + 4);
    assert block[|block| - 4..] == EncodeFixed32(|restarts|);
  }

  /** A filter block with one filter: the filter, where it begins, where the filters end, and 11. */
  lemma OneFilter(p: FilterBlock.Policy, k: Bytes, block: Bytes)
    requires FilterBlock.IsFilterBlock(p, block, [[k]]) && |p.create([k])| < 256
    ensures block == p.create([k]) + [0, 0, 0, 0, |p.create([k])| as Byte, 0, 0, 0, 11]
  {
    var sets := [[k]];
    var offsets :| FilterBlock.OffsetsOf(p, sets, offsets)
      && block == FilterBlock.Filters(p, sets) + Fixed32s(offsets) + EncodeFixed32(|FilterBlock.Filters(p, sets)|)
                  + [FilterBlock.BASE_LG as Byte];
    assert sets[..0] == [];
    assert FilterBlock.Filters(p, []) == [];
    assert FilterBlock.Filters(p, sets) == p.create([k]);
    assert offsets == [0];
    SmallFixed(0);
    SmallFixed(|p.create([k])|);
    assert offsets[..0] == [];
    assert Fixed32s([]) == [];
    assert Fixed32s(offsets) == [0, 0, 0, 0];
  }

  /** A version edit: each field behind its tag, a varint. */
  lemma EditFields(n: Byte, level: Byte, a: Byte, b: Byte)
    requires n < 128 && level < 128
    ensures EditCodec.FieldBytes(EditCodec.Field.Comparator([a])) == [1, 1, a]
    ensures EditCodec.FieldBytes(EditCodec.Field.LogNumber(n as nat)) == [2, n]
    ensures EditCodec.FieldBytes(EditCodec.Field.NextFileNumber(n as nat)) == [3, n]
    ensures EditCodec.FieldBytes(EditCodec.Field.LastSequence(n as nat)) == [4, n]
    ensures EditCodec.FieldBytes(EditCodec.Field.Pointer(EditCodec.CompactPointer(level as nat, [a])))
         == [5, level, 1, a]
    ensures EditCodec.FieldBytes(EditCodec.Field.Deleted(EditCodec.DeletedFile(level as nat, n as nat)))
         == [6, level, n]
    ensures EditCodec.FieldBytes(EditCodec.Field.New(EditCodec.NewFile(level as nat, n as nat, 9, [a], [b])))
         == [7, level, n, 9, 1, a, 1, b]
    ensures EditCodec.FieldBytes(EditCodec.Field.PrevLogNumber(n as nat)) == [9, n]
  {
    SmallVarint(n as nat);
    SmallVarint(level as nat);
    SmallVarint(1);
    SmallVarint(2);
    SmallVarint(3);
    SmallVarint(4);
    SmallVarint(5);
    SmallVarint(6);
    SmallVarint(7);
    SmallVarint(9);
  }

  /** The fields of an edit stand in this order, which is not that of their tags. */
  lemma EditOrder(deleted: EditCodec.DeletedFile, file: EditCodec.NewFile, pointer: EditCodec.CompactPointer)
    ensures
      var e := EditCodec.Edit.Edit(Some([0]), Some(2), Some(9), Some(3), Some(4), [pointer], {deleted}, [file]);
      EditCodec.FieldsOf(e, [deleted]) ==
        [EditCodec.Comparator([0]), EditCodec.LogNumber(2), EditCodec.PrevLogNumber(9), EditCodec.NextFileNumber(3),
         EditCodec.LastSequence(4), EditCodec.Pointer(pointer), EditCodec.Deleted(deleted), EditCodec.New(file)]
  {
    assert [pointer][..0] == [] && [deleted][..0] == [] && [file][..0] == [];
    assert EditCodec.Pointers([pointer]) == [EditCodec.Pointer(pointer)];
    assert EditCodec.Deletions([deleted]) == [EditCodec.Deleted(deleted)];
    assert EditCodec.News([file]) == [EditCodec.New(file)];
  }
}
