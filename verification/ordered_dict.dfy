/** Insertion-ordered dictionaries, the shape of Python's `dict` and `OrderedDict`, and
    the optional values the rest of the model uses. */
module OrderedDicts {

  datatype Option<+T> = None | Some(value: T)

  ghost predicate NoDuplicates(keys: seq<string>) {
    forall i, j :: 0 <= i < j < |keys| ==> keys[i] != keys[j]
  }

  /** The position of `key`, or the length of `keys` when it is absent. */
  function IndexOf(keys: seq<string>, key: string): (i: nat)
    ensures i <= |keys|
    ensures i < |keys| ==> keys[i] == key
    ensures forall j :: 0 <= j < i ==> keys[j] != key
  {
    if |keys| == 0 || keys[0] == key then 0 else 1 + IndexOf(keys[1..], key)
  }

  function Without(keys: seq<string>, key: string): seq<string> {
    var i := IndexOf(keys, key);
    if i < |keys| then keys[..i] + keys[i + 1..] else keys
  }

  lemma WithoutMembers(keys: seq<string>, key: string)
    requires NoDuplicates(keys)
    ensures NoDuplicates(Without(keys, key))
    ensures forall k :: k in Without(keys, key) <==> k in keys && k != key
    ensures |Without(keys, key)| == if key in keys then |keys| - 1 else |keys|
  {
    var i := IndexOf(keys, key);
    if i < |keys| {
      assert keys == keys[..i] + [key] + keys[i + 1..];
    }
  }

  /** `keys` lists the keys in insertion order; `vals` holds their values. */
  datatype OrderedDict<V> = OrderedDict(keys: seq<string>, vals: map<string, V>) {

    ghost predicate Valid() {
      NoDuplicates(keys) && forall k :: k in keys <==> k in vals
    }

    /** `pop(key, None)`: an absent key changes nothing. */
    function Pop(key: string): (d: OrderedDict<V>)
      requires Valid()
      ensures d.Valid()
      ensures d.vals == vals - {key}
      ensures |d.keys| == if key in vals then |keys| - 1 else |keys|
    {
      WithoutMembers(keys, key);
      OrderedDict(Without(keys, key), vals - {key})
    }

    /** `self[key] = value`: a present key keeps its place, a new one goes last. */
    function Put(key: string, value: V): (d: OrderedDict<V>)
      requires Valid()
      ensures d.Valid()
      ensures d.vals == vals[key := value]
      ensures |d.keys| == if key in vals then |keys| else |keys| + 1
    {
      OrderedDict(if key in vals then keys else keys + [key], vals[key := value])
    }
  }

  function Empty<V>(): (d: OrderedDict<V>)
    ensures d.Valid() && |d.keys| == 0
  {
    OrderedDict([], map[])
  }

  /** The values in insertion order: `list(self.values())`. */
  function Values<V>(d: OrderedDict<V>): (vs: seq<V>)
    requires d.Valid()
    ensures |vs| == |d.keys|
    ensures forall i :: 0 <= i < |vs| ==> vs[i] == d.vals[d.keys[i]]
  {
    seq(|d.keys|, i requires 0 <= i < |d.keys| => assert d.keys[i] in d.keys; d.vals[d.keys[i]])
  }
}
