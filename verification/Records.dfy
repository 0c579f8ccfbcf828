/**
 * The persistence file as bytes: how an entry is written, and what reading does with any bytes
 * whatever, torn or foreign ones included. PersistenceFile.dfy runs it.
 */
module Records {
  import opened EntryLog
  import opened Decimal

  const DELIMITER := '\r'

  function Encode(e: Entry): string {
    ToString(e.index) + [DELIMITER] + ToString(e.term) + [DELIMITER] + e.content + [DELIMITER]
  }

  function EncodeAll(log: seq<Entry>): string {
    if log == [] then "" else EncodeAll(log[..|log| - 1]) + Encode(log[|log| - 1])
  }

  /** getline: the bytes before the first delimiter and those behind it; None at the end of the file. */
  function Cut(s: string): (r: Option<(string, string)>)
    ensures r.Some? ==> s == r.value.0 + [DELIMITER] + r.value.1 && DELIMITER !in r.value.0
    ensures r.None? <==> DELIMITER !in s
  {
    if s == [] then None
    else if s[0] == DELIMITER then Some(("", s[1..]))
    else match Cut(s[1..])
         case None => None
         case Some((line, rest)) => Some(([s[0]] + line, rest))
  }

  /** An input stream: what it has not read yet, and whether all reads so far were good. */
  datatype Reader = Reader(rest: string, good: bool)

  const SPENT := Reader("", false)

  /** The setters behind the reads: an exception keeps what was set before it. */
  function Assign(e: Entry, index: string, term: string, content: string): Entry {
    var i, t := Stoi(index), Stoi(term);
    if i.None? then e
    else if t.None? then e.(index := i.value)
    else Entry(i.value, t.value, content)
  }

  /** operator>>: the stream and the entry afterwards. */
  function Read(r: Reader, e: Entry): (res: (Reader, Entry))
    ensures res.0.good ==> |res.0.rest| < |r.rest|
  {
    if !r.good then (r, e)
    else
      match Cut(r.rest)
      case None => (SPENT, e)
      case Some((index, r1)) =>
        match Cut(r1)
        case None => (SPENT, e)
        case Some((term, r2)) =>
          match Cut(r2)
          case None => (SPENT, Assign(e, index, term, r2))
          case Some((content, r3)) => (Reader(r3, true), Assign(e, index, term, content))
  }

  // ---------------------------------------------------------------- the operations on bytes

  /** getNextPFEntry until it fails: what it yields, starting from the entry e. */
  function Scan(r: Reader, e: Entry): seq<Entry>
    decreases |r.rest|
  {
    var (r', e') := Read(r, e);
    if r'.good then [e'] + Scan(r', e') else []
  }

  /** The entry as the last, failing read leaves it. */
  function Leftover(r: Reader, e: Entry): Entry
    decreases |r.rest|
  {
    var (r', e') := Read(r, e);
    if r'.good then Leftover(r', e') else e'
  }

  /** findEntry: whether it is found, and the caller's entry afterwards. */
  function FindIn(r: Reader, index: int, e: Entry): (bool, Entry)
    decreases |r.rest|
  {
    var (r', e') := Read(r, e);
    if !r'.good then (false, e') else if e'.index == index then (true, e') else FindIn(r', index, e')
  }

  function FindLast(r: Reader, e: Entry): (bool, Entry) {
    var (r', e') := Read(r, e);
    if !r'.good then (false, e') else (true, Leftover(r', e'))
  }

  /** What deleteEntryAfter writes to the temporary file, and its entry at the end of the loop. */
  function CopyBefore(r: Reader, index: int, e: Entry): (string, Entry)
    decreases |r.rest|
  {
    var (r', e') := Read(r, e);
    if !r'.good then ("", e')
    else if e'.index == index then ("", e')
    else
      var (tmp, last) := CopyBefore(r', index, e');
      (Encode(e') + tmp, last)
  }

  /** deleteEntryAfter: the new bytes; None is its error, which leaves the file alone. */
  function DeleteIn(bytes: string, index: int): Option<string> {
    var (tmp, last) := CopyBefore(Reader(bytes, true), index, NO_ENTRY);
    if last.index == index then Some(tmp) else None
  }

  // ---------------------------------------------------------------- what can be stored

  /** Numbers that stoi takes, and content without the delimiter. */
  predicate Storable(e: Entry) { IsInt(e.index) && IsInt(e.term) && DELIMITER !in e.content }

  predicate AllStorable(log: seq<Entry>) { forall i :: 0 <= i < |log| ==> Storable(log[i]) }

  lemma {:induction false} CutLine(line: string, rest: string)
    requires DELIMITER !in line
    ensures Cut(line + [DELIMITER] + rest) == Some((line, rest))
  {
    var s := line + [DELIMITER] + rest;
    if line == [] {
      assert s[1..] == rest;
    } else {
      assert s[1..] == line[1..] + [DELIMITER] + rest && s[0] == line[0];
      CutLine(line[1..], rest);
      assert line == [line[0]] + line[1..];
    }
  }

  lemma NumberHasNoDelimiter(n: int)
    ensures DELIMITER !in ToString(n)
  {
    var digits := NatToString(if n < 0 then -n else n);
    assert forall i :: 0 <= i < |digits| ==> IsDigit(digits[i]);
  }

  /** The content as the next read sees it: up to its first delimiter. */
  function Visible(content: string): string {
    match Cut(content) case None => content case Some((line, _)) => line
  }

  function BehindCut(content: string, rest: string): string {
    match Cut(content) case None => rest case Some((_, more)) => more + [DELIMITER] + rest
  }

  lemma CutContent(content: string, rest: string)
    ensures Cut(content + [DELIMITER] + rest) == Some((Visible(content), BehindCut(content, rest)))
  {
    match Cut(content)
    case None => CutLine(content, rest);
    case Some((line, more)) =>
      assert content + [DELIMITER] + rest == line + [DELIMITER] + (more + [DELIMITER] + rest);
      CutLine(line, more + [DELIMITER] + rest);
  }

  /** Reading back a written entry, storable or not. */
  lemma ReadEncoded(x: Entry, rest: string, e: Entry)
    ensures Read(Reader(Encode(x) + rest, true), e)
            == (Reader(BehindCut(x.content, rest), true),
                Assign(e, ToString(x.index), ToString(x.term), Visible(x.content)))
  {
    var tail := x.content + [DELIMITER] + rest;
    var mid := ToString(x.term) + [DELIMITER] + tail;
    assert Encode(x) + rest == ToString(x.index) + [DELIMITER] + mid;
    NumberHasNoDelimiter(x.index);
    NumberHasNoDelimiter(x.term);
    CutLine(ToString(x.index), mid);
    CutLine(ToString(x.term), tail);
    CutContent(x.content, rest);
  }

  lemma ReadStorable(x: Entry, rest: string, e: Entry)
    requires Storable(x)
    ensures Read(Reader(Encode(x) + rest, true), e) == (Reader(rest, true), x)
  {
    ReadEncoded(x, rest, e);
    ConvertToString(x.index);
    ConvertToString(x.term);
  }

  // ---------------------------------------------------------------- from the front

  lemma {:induction false} EncodeFront(log: seq<Entry>)
    requires log != []
    ensures EncodeAll(log) == Encode(log[0]) + EncodeAll(log[1..])
  {
    var n := |log|;
    if n == 1 {
      assert log[..0] == [] && log[1..] == [];
    } else {
      var middle := log[1..n - 1];
      EncodeFront(log[..n - 1]);
      assert log[..n - 1][1..] == middle && log[1..][..n - 2] == middle;
      Assoc(Encode(log[0]), EncodeAll(middle), Encode(log[n - 1]));
      assert EncodeAll(log) == EncodeAll(log[..n - 1]) + Encode(log[n - 1]);
    }
  }

  lemma ReadFront(log: seq<Entry>, e: Entry)
    requires log != [] && Storable(log[0])
    ensures Read(Reader(EncodeAll(log), true), e) == (Reader(EncodeAll(log[1..]), true), log[0])
  {
    EncodeFront(log);
    ReadStorable(log[0], EncodeAll(log[1..]), e);
  }

  // ---------------------------------------------------------------- decoding

  lemma {:induction false} ScanStorable(log: seq<Entry>, e: Entry)
    requires AllStorable(log)
    ensures Scan(Reader(EncodeAll(log), true), e) == log
    decreases |log|
  {
    var r := Reader(EncodeAll(log), true);
    if log == [] {
      assert Read(r, e) == (SPENT, e);
    } else {
      ReadFront(log, e);
      ScanStorable(log[1..], log[0]);
      assert Scan(r, e) == [log[0]] + log[1..];
    }
  }

  /** The last entry, or the one in hand on an empty list. */
  function LastOr(log: seq<Entry>, e: Entry): Entry { if log == [] then e else Last(log) }

  lemma LastOrStep(log: seq<Entry>, e: Entry)
    requires log != []
    ensures LastOr(log, e) == LastOr(log[1..], log[0])
  {
  }

  lemma LeftoverStep(r: Reader, e: Entry, r': Reader, e': Entry)
    requires Read(r, e) == (r', e') && r'.good
    ensures Leftover(r, e) == Leftover(r', e')
  {
  }

  lemma {:induction false} LeftoverStorable(log: seq<Entry>, e: Entry)
    requires AllStorable(log)
    ensures Leftover(Reader(EncodeAll(log), true), e) == LastOr(log, e)
    decreases |log|
  {
    var r := Reader(EncodeAll(log), true);
    if log == [] {
      assert Read(r, e) == (SPENT, e);
    } else {
      ReadFront(log, e);
      LeftoverStep(r, e, Reader(EncodeAll(log[1..]), true), log[0]);
      LastOrStep(log, e);
      LeftoverStorable(log[1..], log[0]);
    }
  }

  lemma ReadUnstorable(x: Entry, rest: string, e: Entry)
    requires !Storable(x) && IsInt(e.index) && IsInt(e.term)
    ensures Read(Reader(Encode(x) + rest, true), e).0.good
    ensures Read(Reader(Encode(x) + rest, true), e).1 != x
  {
    ReadEncoded(x, rest, e);
    ConvertToString(x.index);
    ConvertToString(x.term);
  }

  lemma StorableRest(log: seq<Entry>)
    requires log != [] && Storable(log[0]) && AllStorable(log[1..])
    ensures AllStorable(log)
  {
    assert forall i :: 1 <= i < |log| ==> log[i] == log[1..][i - 1];
  }

  lemma {:induction false} ScanUnstorable(log: seq<Entry>, e: Entry)
    requires !AllStorable(log) && IsInt(e.index) && IsInt(e.term)
    ensures Scan(Reader(EncodeAll(log), true), e) != log
    decreases |log|
  {
    var r := Reader(EncodeAll(log), true);
    if Storable(log[0]) {
      ReadFront(log, e);
      if AllStorable(log[1..]) { StorableRest(log); }
      ScanUnstorable(log[1..], log[0]);
      assert Scan(r, e)[1..] == Scan(Reader(EncodeAll(log[1..]), true), log[0]);
    } else {
      EncodeFront(log);
      ReadUnstorable(log[0], EncodeAll(log[1..]), e);
      assert Scan(r, e)[0] == Read(r, e).1;
    }
  }

  /** Decoding undoes encoding for exactly the storable lists. */
  lemma DecodeEncode(log: seq<Entry>)
    ensures Scan(Reader(EncodeAll(log), true), NO_ENTRY) == log <==> AllStorable(log)
  {
    if AllStorable(log) { ScanStorable(log, NO_ENTRY); } else { ScanUnstorable(log, NO_ENTRY); }
  }

  /** Different storable lists have different bytes. */
  lemma EncodingIsInjective(a: seq<Entry>, b: seq<Entry>)
    requires AllStorable(a) && AllStorable(b) && EncodeAll(a) == EncodeAll(b)
    ensures a == b
  {
    ScanStorable(a, NO_ENTRY);
    ScanStorable(b, NO_ENTRY);
  }

  // ---------------------------------------------------------------- the operations on lists

  /** findEntry on the list: the first entry with the index, or the entry in hand at the end. */
  function Looked(log: seq<Entry>, index: int, e: Entry): (bool, Entry) {
    match Find(log, index)
    case Some(x) => (true, x)
    case None => (false, if log == [] then e else Last(log))
  }

  lemma LookedStep(log: seq<Entry>, index: int, e: Entry)
    requires log != []
    ensures Looked(log, index, e) == if log[0].index == index then (true, log[0]) else Looked(log[1..], index, log[0])
  {
  }

  lemma {:induction false} FindAgrees(log: seq<Entry>, index: int, e: Entry)
    requires AllStorable(log)
    ensures FindIn(Reader(EncodeAll(log), true), index, e) == Looked(log, index, e)
    decreases |log|
  {
    var r := Reader(EncodeAll(log), true);
    if log == [] {
      assert Read(r, e) == (SPENT, e);
    } else {
      ReadFront(log, e);
      LookedStep(log, index, e);
      if log[0].index != index { FindAgrees(log[1..], index, log[0]); }
    }
  }

  lemma FindLastAgrees(log: seq<Entry>, e: Entry)
    requires AllStorable(log)
    ensures FindLast(Reader(EncodeAll(log), true), e) == if log == [] then (false, e) else (true, Last(log))
  {
    if log != [] {
      ReadFront(log, e);
      LeftoverStorable(log[1..], log[0]);
    }
  }

  /** The entry in hand when the copying stops. */
  function Stop(log: seq<Entry>, index: int, e: Entry): Entry {
    var k := Position(log, index);
    if k < |log| then log[k] else if log == [] then e else Last(log)
  }

  lemma CopyStep(log: seq<Entry>, index: int, e: Entry)
    requires log != [] && log[0].index != index
    ensures Stop(log, index, e) == Stop(log[1..], index, log[0])
    ensures EncodeAll(log[..Position(log, index)])
            == Encode(log[0]) + EncodeAll(log[1..][..Position(log[1..], index)])
  {
    var k := Position(log, index);
    EncodeFront(log[..k]);
    assert log[..k][1..] == log[1..][..k - 1];
  }

  lemma {:induction false} CopyAgrees(log: seq<Entry>, index: int, e: Entry)
    requires AllStorable(log)
    ensures CopyBefore(Reader(EncodeAll(log), true), index, e)
            == (EncodeAll(log[..Position(log, index)]), Stop(log, index, e))
    decreases |log|
  {
    var r := Reader(EncodeAll(log), true);
    if log == [] {
      assert Read(r, e) == (SPENT, e);
    } else {
      ReadFront(log, e);
      if log[0].index != index {
        CopyAgrees(log[1..], index, log[0]);
        CopyStep(log, index, e);
      }
    }
  }

  lemma DeleteAgrees(log: seq<Entry>, index: int)
    requires AllStorable(log)
    ensures var d := DeleteFrom(log, index);
            DeleteIn(EncodeAll(log), index) == (if d.Some? then Some(EncodeAll(d.value)) else None)
            && (d.Some? ==> AllStorable(d.value))
  {
    CopyAgrees(log, index, NO_ENTRY);
    assert log[..|log|] == log;
  }

  lemma AppendAgrees(log: seq<Entry>, e: Entry)
    ensures EncodeAll(log + [e]) == EncodeAll(log) + Encode(e)
  {
    assert (log + [e])[..|log|] == log;
  }

  // ---------------------------------------------------------------- whole histories

  datatype Edit = Append(entry: Entry) | DeleteAfter(index: int) | DeleteAll

  function EditList(log: seq<Entry>, edit: Edit): seq<Entry> {
    match edit
    case Append(e) => log + [e]
    case DeleteAfter(index) => (match DeleteFrom(log, index) case Some(kept) => kept case None => log)
    case DeleteAll => []
  }

  function EditBytes(bytes: string, edit: Edit): string {
    match edit
    case Append(e) => bytes + Encode(e)
    case DeleteAfter(index) => (match DeleteIn(bytes, index) case Some(kept) => kept case None => bytes)
    case DeleteAll => ""
  }

  function ListAfter(edits: seq<Edit>): seq<Entry> {
    if edits == [] then [] else EditList(ListAfter(edits[..|edits| - 1]), edits[|edits| - 1])
  }

  function BytesAfter(edits: seq<Edit>): string {
    if edits == [] then "" else EditBytes(BytesAfter(edits[..|edits| - 1]), edits[|edits| - 1])
  }

  predicate AppendsStorable(edits: seq<Edit>) {
    forall i :: 0 <= i < |edits| && edits[i].Append? ==> Storable(edits[i].entry)
  }

  /** After any history of storable appends and deletions, the file is the encoding of the list. */
  lemma {:induction false} FileRefinesList(edits: seq<Edit>)
    requires AppendsStorable(edits)
    ensures AllStorable(ListAfter(edits)) && BytesAfter(edits) == EncodeAll(ListAfter(edits))
  {
    if edits != [] {
      var before := edits[..|edits| - 1];
      FileRefinesList(before);
      var log := ListAfter(before);
      match edits[|edits| - 1]
      case Append(e) => AppendAgrees(log, e);
      case DeleteAfter(index) => DeleteAgrees(log, index);
      case DeleteAll =>
    }
  }
}
