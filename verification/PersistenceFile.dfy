/** The persistence file as the program keeps it: a file, its input stream, and a temporary file. */
module PersistenceProgram {
  import opened EntryLog
  import opened Decimal
  import opened Records

  class PersistenceFile {
    var file: string      // the bytes on disk
    var position: nat     // of the input stream
    var good: bool        // its state

    ghost predicate Valid()
      reads this`file, this`position
    {
      position <= |file|
    }

    /** What the input stream has in front of it. */
    ghost function In(): Reader
      requires Valid()
      reads this
    {
      Reader(file[position..], good)
    }

    /** The file holds exactly these entries. */
    ghost predicate Holds(log: seq<Entry>)
      reads this`file
    {
      AllStorable(log) && file == EncodeAll(log)
    }

    constructor (file: string)
      ensures Valid() && this.file == file && In() == Reader(file, true)
    {
      this.file := file;
      position := 0;
      good := true;
    }

    method ResetFileStream()
      modifies this`position, this`good
      ensures Valid() && In() == Reader(file, true)
    {
      position := 0;
      good := true;
    }

    method GetLine() returns (line: string)
      requires Valid()
      modifies this`position, this`good
      ensures Valid()
      ensures !old(good) ==> In() == old(In())
      ensures old(good) ==>
                match Cut(old(In()).rest)
                case None => line == old(In()).rest && In() == SPENT
                case Some((first, rest)) => line == first && In() == Reader(rest, true)
    {
      line := "";
      if !good { return; }
      match Cut(file[position..])
      case None =>
        line := file[position..];
        position := |file|;
        good := false;
      case Some((first, rest)) =>
        line := first;
        position := position + |first| + 1;
        assert file[position..] == rest;
    }

    /** operator>> and the look at the stream behind it. */
    method GetNextPFEntry(entry: Entry) returns (ok: bool, e: Entry)
      requires Valid()
      modifies this`position, this`good
      ensures Valid()
      ensures (In(), e) == Read(old(In()), entry) && ok == good
    {
      e := entry;
      var indexStr := GetLine();
      if !good { return false, e; }
      var termStr := GetLine();
      if !good { return false, e; }
      var contentStr := GetLine();
      var index := Stoi(indexStr);
      if index.None? { return good, e; }
      e := e.(index := index.value);
      var term := Stoi(termStr);
      if term.None? { return good, e; }
      e := e.(term := term.value);
      e := e.(content := contentStr);
      return good, e;
    }

    method AppendToPF(entry: Entry)
      requires Valid()
      modifies this`file
      ensures Valid() && file == old(file) + Encode(entry)
      ensures good == old(good) && In().rest == old(In().rest) + Encode(entry)
      ensures forall log :: old(Holds(log)) && Storable(entry) ==> Holds(log + [entry])
    {
      file := file + (ToString(entry.index) + [DELIMITER] + ToString(entry.term) + [DELIMITER]
                      + entry.content + [DELIMITER]);
      forall log | old(Holds(log)) && Storable(entry) ensures Holds(log + [entry]) {
        AppendAgrees(log, entry);
      }
    }

    method FindEntry(index: int, entry: Entry) returns (ok: bool, e: Entry)
      modifies this`position, this`good
      ensures Valid() && (ok, e) == FindIn(Reader(file, true), index, entry)
      ensures forall log :: Holds(log) ==> ok == Find(log, index).Some? && (ok ==> e == Find(log, index).value)
    {
      e := entry;
      ResetFileStream();
      ghost var goal := FindIn(Reader(file, true), index, entry);
      while true
        invariant Valid() && FindIn(In(), index, e) == goal
        decreases |In().rest|
      {
        ok, e := GetNextPFEntry(e);
        if !ok || e.index == index { break; }
      }
      forall log | Holds(log) ensures ok == Find(log, index).Some? && (ok ==> e == Find(log, index).value) {
        FindAgrees(log, index, entry);
      }
    }

    method FindLastEntry(entry: Entry) returns (ok: bool, e: Entry)
      modifies this`position, this`good
      ensures Valid() && (ok, e) == FindLast(Reader(file, true), entry)
      ensures forall log :: Holds(log) ==> ok == (log != []) && e == if ok then Last(log) else entry
    {
      ResetFileStream();
      ok, e := GetNextPFEntry(entry);
      if ok { e := SkipToEnd(e); }
      forall log | Holds(log) ensures ok == (log != []) && e == if ok then Last(log) else entry {
        FindLastAgrees(log, entry);
      }
    }

    method SkipToEnd(entry: Entry) returns (e: Entry)
      requires Valid()
      modifies this`position, this`good
      ensures Valid() && e == Leftover(old(In()), entry)
    {
      e := entry;
      while true
        invariant Valid() && Leftover(In(), e) == Leftover(old(In()), entry)
        decreases |In().rest|
      {
        var ok: bool;
        ok, e := GetNextPFEntry(e);
        if !ok { break; }
      }
    }

    /** Copies what stays to a temporary file and puts it in the place of the file. */
    method DeleteEntryAfter(index: int) returns (ok: bool)
      modifies this
      ensures Valid() && ok == DeleteIn(old(file), index).Some?
      ensures file == if ok then DeleteIn(old(file), index).value else old(file)
      ensures forall log :: old(Holds(log)) ==>
                var d := DeleteFrom(log, index);
                ok == d.Some? && Holds(if ok then d.value else log)
    {
      ResetFileStream();
      var tmp, tmpEntry := CopyUntil(index);
      ok := tmpEntry.index == index;
      if ok {
        file := tmp;
        ResetFileStream();
      }
      forall log | old(Holds(log)) ensures
          var d := DeleteFrom(log, index);
          ok == d.Some? && Holds(if ok then d.value else log)
      {
        DeleteAgrees(log, index);
        assert file == EncodeAll(if ok then DeleteFrom(log, index).value else log);
      }
    }

    method CopyUntil(index: int) returns (tmp: string, e: Entry)
      requires Valid()
      modifies this`position, this`good
      ensures Valid() && (tmp, e) == CopyBefore(old(In()), index, NO_ENTRY)
    {
      tmp := "";
      e := NO_ENTRY;
      ghost var goal := CopyBefore(In(), index, NO_ENTRY);
      JoinedNothing(goal.0, goal.1);
      while true
        invariant Valid() && goal == Joined(tmp, CopyBefore(In(), index, e))
        decreases |In().rest|
      {
        ghost var r, before := In(), e;
        var ok: bool;
        ok, e := GetNextPFEntry(e);
        if !ok || e.index == index {
          assert CopyBefore(r, index, before) == ("", e);
          JoinedNothing(tmp, e);
          break;
        }
        CopiesOn(tmp, r, before, index);
        tmp := tmp + Encode(e);
      }
    }

    /** What has been copied already, in front of what is still to be copied. */
    static ghost function Joined(tmp: string, rest: (string, Entry)): (string, Entry) { (tmp + rest.0, rest.1) }

    static lemma JoinedNothing(s: string, e: Entry)
      ensures Joined("", (s, e)) == (s, e) && Joined(s, ("", e)) == (s, e)
    {
      assert "" + s == s && s + "" == s;
    }

    static lemma CopiesOn(tmp: string, r: Reader, e: Entry, index: int)
      requires Read(r, e).0.good && Read(r, e).1.index != index
      ensures Joined(tmp, CopyBefore(r, index, e))
              == Joined(tmp + Encode(Read(r, e).1), CopyBefore(Read(r, e).0, index, Read(r, e).1))
    {
      Assoc(tmp, Encode(Read(r, e).1), CopyBefore(Read(r, e).0, index, Read(r, e).1).0);
    }

    method DeleteAllEntry()
      modifies this
      ensures Valid() && file == "" && Holds([]) && In() == Reader("", true)
    {
      file := "";
      ResetFileStream();
    }
  }
}
