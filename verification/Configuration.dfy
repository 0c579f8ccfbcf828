/** The configuration of a process, as its components read it. */
module Configuration {
  import opened EntryLog
  import opened Decimal

  /** The text behind a key; any text may stand in a file, and "undefine" stands for a missing key. */
  type Conf = string -> string

  function NumberAt(conf: Conf, key: string): Option<int> { Stoi(conf(key)) }

  /** The number behind a key that ends in an id. */
  function NumberOf(conf: Conf, key: string, id: int): Option<int> { NumberAt(conf, key + ToString(id)) }

  function TextOf(conf: Conf, key: string, id: int): string { conf(key + ToString(id)) }

  predicate AllReadable(conf: Conf, key: string, ids: seq<int>) {
    forall s :: s in ids ==> NumberOf(conf, key, s).Some?
  }

  function Texts(conf: Conf, key: string, ids: seq<int>): map<int, string> {
    map s | s in ids :: TextOf(conf, key, s)
  }

  function Numbers(conf: Conf, key: string, ids: seq<int>): map<int, int>
    requires AllReadable(conf, key, ids)
  {
    map s | s in ids :: NumberOf(conf, key, s).value
  }

  lemma TextsExtend(conf: Conf, key: string, ids: seq<int>, id: int)
    ensures Texts(conf, key, ids + [id]) == Texts(conf, key, ids)[id := TextOf(conf, key, id)]
  {
    assert forall s :: s in ids + [id] <==> s in ids || s == id;
  }

  lemma NumbersExtend(conf: Conf, key: string, ids: seq<int>, id: int)
    requires AllReadable(conf, key, ids) && NumberOf(conf, key, id).Some?
    ensures AllReadable(conf, key, ids + [id])
    ensures Numbers(conf, key, ids + [id]) == Numbers(conf, key, ids)[id := NumberOf(conf, key, id).value]
  {
    assert forall s :: s in ids + [id] <==> s in ids || s == id;
  }
}
