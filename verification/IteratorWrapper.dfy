/** What a merging iterator merges: a cursor over one memtable or table, or over the concatenated
    tables of a level, with its validity and its key at hand. */
module IteratorWrapper {
  import opened Keys
  import opened Cursors
  import opened TwoLevelIterator

  class Wrapper {
    const single: Cursor?
    const level: TwoLevel?
    var valid: bool
    var key: InternalKey
    ghost const es: seq<Entry>
    ghost var pos: nat
    ghost var repr: set<object>

    constructor Single(cursor: Cursor)
      requires cursor.Ok()
      ensures Ok() && repr == {this, cursor} && es == cursor.es
    {
      single, level, es, repr := cursor, null, cursor.es, {this, cursor};
      pos, valid, key := cursor.pos, false, SeekKey(0.0, 0);
      new;
      Update();
    }

    constructor Level(files: TwoLevel)
      requires files.Ok()
      ensures Ok() && fresh(repr - {files, files.index} - (if files.data != null then {files.data} else {}))
      ensures es == files.All()
    {
      single, level, es := null, files, files.All();
      repr, pos, valid, key := {this}, files.at, false, SeekKey(0.0, 0);
      new;
      Update();
    }

    /** The objects of the cursor that it wraps. */
    ghost function Inner(): set<object>
      reads level
    {
      (if single != null then {single} else {})
      + (if level != null then {level, level.index} + (if level.data != null then {level.data} else {}) else {})
    }

    /** Where the wrapped cursor stands. */
    ghost function Where(): nat
      reads single, level
    {
      if single != null then single.pos else if level != null then level.at else 0
    }

    ghost predicate InnerOk()
      reads single, level, Inner()
    {
      && (single != null <==> level == null)
      && (single != null ==> single.Ok() && single.es == es)
      && (level != null ==> level.Ok() && level.All() == es)
    }

    ghost predicate Ok()
      reads this, repr
    {
      && this in repr && (single != null ==> single in repr)
      && (level != null ==> level in repr && level.index in repr && (level.data != null ==> level.data in repr))
      && repr == {this} + Inner() && this !in Inner()
      && InnerOk() && pos == Where() && Sorted(es) && pos <= |es|
      && valid == (pos < |es|) && (valid ==> key == es[pos].key)
    }

    lemma OwnsItself()
      requires Ok()
      ensures this in repr
    {
    }

    /** Looks up again where the wrapped cursor stands. */
    method Update()
      requires InnerOk() && this !in Inner()
      modifies this
      ensures Ok() && pos == Where() && repr == {this} + Inner()
    {
      repr := {this} + Inner();
      if single != null {
        pos := single.pos;
        valid := single.Valid();
        if valid {
          key := single.Current().key;
        }
      } else {
        pos := level.at;
        level.ShowsCurrent();
        FlatSorted(level.index.es, level.open, |level.index.es|);
        valid := level.Valid();
        if valid {
          key := level.data.Current().key;
        }
      }
    }

    method Current() returns (e: Entry)
      requires Ok() && valid
      ensures e == es[pos]
    {
      if single != null {
        e := single.Current();
      } else {
        level.ShowsCurrent();
        e := level.data.Current();
      }
    }

    method SeekToFirst()
      requires Ok()
      modifies repr
      ensures Ok() && fresh(repr - old(repr)) && pos == 0
    {
      if single != null {
        single.SeekToFirst();
      } else {
        level.SeekToFirst();
      }
      Update();
    }

    method SeekToLast()
      requires Ok()
      modifies repr
      ensures Ok() && fresh(repr - old(repr)) && pos == if es == [] then 0 else |es| - 1
    {
      if single != null {
        single.SeekToLast();
      } else {
        level.SeekToLast();
      }
      Update();
    }

    method Seek(target: InternalKey)
      requires Ok()
      modifies repr
      ensures Ok() && fresh(repr - old(repr)) && IsSeek(es, target, pos)
    {
      if single != null {
        single.Seek(target);
      } else {
        level.Seek(target);
      }
      Update();
    }

    method Next()
      requires Ok() && valid
      modifies repr
      ensures Ok() && fresh(repr - old(repr)) && pos == old(pos) + 1
    {
      if single != null {
        single.Next();
      } else {
        level.ShowsCurrent();
        level.Next();
      }
      Update();
    }

    method Prev()
      requires Ok() && valid
      modifies repr
      ensures Ok() && fresh(repr - old(repr)) && pos == if old(pos) == 0 then |es| else old(pos) - 1
    {
      if single != null {
        single.Prev();
      } else {
        level.ShowsCurrent();
        level.Prev();
      }
      Update();
    }
  }
}
