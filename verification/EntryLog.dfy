/**
 * The log of a cluster node as a list of entries, with the four operations that the
 * persistence file offers on it. The byte file behaves like this list exactly as long as
 * every entry can be stored (Records.dfy, and DiskLogs.dfy for the logs of the cluster).
 */
module EntryLog {

  datatype Option<+T> = None | Some(value: T)

  datatype Entry = Entry(index: int, term: int, content: string)

  /** What a default-constructed Entry holds. */
  const NO_ENTRY := Entry(0, 0, "")

  function Last(log: seq<Entry>): Entry {
    if log == [] then NO_ENTRY else log[|log| - 1]
  }

  /** The position of the first entry with the given index, or |log|. */
  function Position(log: seq<Entry>, index: int): (k: nat)
    ensures k <= |log|
    ensures forall j :: 0 <= j < k ==> log[j].index != index
    ensures k < |log| ==> log[k].index == index
  {
    if log == [] then 0
    else if log[0].index == index then 0
    else 1 + Position(log[1..], index)
  }

  function Find(log: seq<Entry>, index: int): Option<Entry> {
    var k := Position(log, index);
    if k < |log| then Some(log[k]) else None
  }

  /** Drops the first entry with the given index and all that follow; None is the source's error. */
  function DeleteFrom(log: seq<Entry>, index: int): Option<seq<Entry>> {
    var k := Position(log, index);
    if k < |log| then Some(log[..k])
    else if Last(log).index == index then Some(log)
    else None
  }

  /** Indexes are exactly 1, 2, ..., |log|. */
  ghost predicate Contiguous(log: seq<Entry>) {
    forall i :: 0 <= i < |log| ==> log[i].index == i + 1
  }

  /** Terms never decrease along the log and lie between 1 and the bound. */
  ghost predicate TermsOrdered(log: seq<Entry>, bound: int) {
    && (forall i :: 0 <= i < |log| ==> 1 <= log[i].term <= bound)
    && (forall i, j :: 0 <= i < j < |log| ==> log[i].term <= log[j].term)
  }

  /** In a contiguous log every search is an array access. */
  lemma ContiguousAccess(log: seq<Entry>, index: int)
    requires Contiguous(log)
    ensures Last(log).index == |log|
    ensures Position(log, index) == if 1 <= index <= |log| then index - 1 else |log|
    ensures Find(log, index) == if 1 <= index <= |log| then Some(log[index - 1]) else None
    ensures 1 <= index <= |log| ==> DeleteFrom(log, index) == Some(log[..index - 1])
  {
    if 1 <= index <= |log| {
      assert log[index - 1].index == index;
    }
  }
}
