/**
 * JSON documents as Python's `json` module decodes them: objects become
 * insertion-ordered dicts, arrays become lists. A decoded object holds each
 * key once (for a repeated key in the text the decoder keeps the last
 * value), so the replies this model reads satisfy `WellFormed`, and on them
 * `Dicts.Get` is Python's `dict.get`.
 */
module Json {
  import opened Dicts

  datatype Value =
    | Null
    | Bool(b: bool)
    | Int(i: int)
    | Float(f: real)
    | Str(s: string)
    | Array(items: seq<Value>)
    | Object(members: seq<Entry<Value>>)

  /** Every object, at any depth, holds each key once. */
  predicate WellFormed(v: Value)
  {
    match v
    case Array(items) => forall i :: 0 <= i < |items| ==> WellFormed(items[i])
    case Object(members) =>
      UniqueKeys(members) && forall i :: 0 <= i < |members| ==> WellFormed(members[i].value)
    case _ => true
  }

  /** A decoded JSON object: a dict from strings to values. */
  type Dict = seq<Entry<Value>>

  /**
   * The dict the decoder builds from an object's members in text order:
   * each member is assigned in turn, as `dict` assignment does.
   */
  function DecodeObject(members: seq<Entry<Value>>): (d: Dict)
    ensures UniqueKeys(d)
    ensures |d| <= |members|
  {
    PutAllUnique([], members);
    PutAllLength([], members);
    DictLiteral(members)
  }

  /** A repeated key keeps the value of its last occurrence in the text. */
  lemma DecodeObjectGet(members: seq<Entry<Value>>, k: string)
    ensures Get(DecodeObject(members), k) == LastGet(members, k)
  {
    PutAllGetLast([], members, k);
  }

  /**
   * A well-formed object is exactly the dict the decoder builds from its own
   * members, so on it `Get` is `dict.get`, and the last occurrence of a key
   * is its only one.
   */
  lemma WellFormedDecoded(members: seq<Entry<Value>>)
    requires WellFormed(Object(members))
    ensures DecodeObject(members) == members
    ensures forall k :: Get(members, k) == LastGet(members, k)
  {
    assert [] + members == members;
    PutAllFresh([], members);
    forall k
      ensures Get(members, k) == LastGet(members, k)
    {
      DecodeObjectGet(members, k);
    }
  }
}
