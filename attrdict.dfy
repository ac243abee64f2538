/** The attribute dictionary: a mapping object updated in place by item
  * assignment, merge and pset, and read through attribute access, pget and
  * walk. Nested mappings are values here (see Nested). */
module AttrDicts {
  import opened Wrappers
  import opened Nested

  class AttrDict<L(==,!new)> {
    var entries: map<string, Value<L>>

    /** What the class's own assignments maintain: every mapping held is an
      * AttrDict. */
    ghost predicate Valid()
      reads this
    {
      forall k | k in entries :: Normal(entries[k])
    }

    constructor ()
      ensures entries == map[] && Valid()
    {
      entries := map[];
    }

    /** __setitem__: a plain mapping is copied into a fresh AttrDict first. */
    method SetItem(key: string, value: Value<L>)
      modifies this
      ensures entries == old(entries)[key := Normalize(value)]
      ensures old(Valid()) && Settled(value) ==> Valid()
    {
      entries := entries[key := Normalize(value)];
      if Settled(value) {
        NormalizeIsNormal(value);
      }
    }

    /** __getattr__: the entry under key, or AttributeError. */
    function GetAttr(key: string): (r: Result<Value<L>, DictError>)
      reads this
      ensures r.Success? <==> key in entries
      ensures r.Success? ==> r.value == entries[key]
      ensures r.Failure? ==> r.error == AttributeError(key)
    {
      if key !in entries then Failure(AttributeError(key)) else Success(entries[key])
    }

    /** _merge(self, that): first the keys only in that are assigned, then
      * each shared key is merged into the mapping held (in place) when both
      * sides hold mappings, and assigned otherwise. */
    method MergeFrom(that: Value<L>)
      requires that.Node?
      modifies this
      ensures entries == Nested.Merge(Attr, old(entries), that)
      ensures old(Valid()) && Settled(that) ==> Valid()
    {
      var before := entries;
      var shared := before.Keys * that.entries.Keys;
      AssignAdded(that);
      UpdateShared(that, before, shared);
      if old(Valid()) && Settled(that) {
        MergeKeepsNormal(before, that);
      }
    }

    /** The first loop of _merge: each key only in that is assigned. */
    method AssignAdded(that: Value<L>)
      requires that.Node?
      modifies this
      ensures entries.Keys == old(entries).Keys + that.entries.Keys
      ensures forall k | k in entries ::
        entries[k] == if k in old(entries) then old(entries)[k] else Normalize(that.entries[k])
    {
      var before := entries;
      var added := that.entries.Keys - before.Keys;
      var todo := added;
      while todo != {}
        invariant todo <= added
        invariant entries.Keys == before.Keys + (added - todo)
        invariant forall k | k in entries :: entries[k] == if k in before then before[k] else Normalize(that.entries[k])
        decreases todo
      {
        var k :| k in todo;
        SetItem(k, that.entries[k]);
        todo := todo - {k};
      }
    }

    /** The second loop of _merge: each shared key is merged into the mapping
      * held when both sides hold mappings, and assigned otherwise. */
    method UpdateShared(that: Value<L>, ghost before: map<string, Value<L>>, shared: set<string>)
      requires that.Node? && shared == before.Keys * that.entries.Keys
      requires entries.Keys == before.Keys + that.entries.Keys
      requires forall k | k in entries ::
        entries[k] == if k in before then before[k] else Normalize(that.entries[k])
      modifies this
      ensures entries == Nested.Merge(Attr, before, that)
    {
      ghost var target := Nested.Merge(Attr, before, that);
      var todo := shared;
      while todo != {}
        invariant todo <= shared
        invariant entries.Keys == target.Keys
        invariant forall k | k in entries :: entries[k] == if k in todo then before[k] else target[k]
        decreases todo
      {
        var k :| k in todo;
        var mine, other := entries[k], that.entries[k];
        if mine.Node? && other.Node? {
          entries := entries[k := Node(mine.kind, Nested.Merge(mine.kind, mine.entries, other))];
        } else {
          SetItem(k, other);
        }
        todo := todo - {k};
      }
    }

    /** merge(*args): each mapping merged in turn. */
    method Merge(args: seq<Value<L>>)
      requires AllMappings(args)
      modifies this
      ensures entries == MergeEach(Attr, old(entries), args)
      ensures old(Valid()) && (forall i :: 0 <= i < |args| ==> Settled(args[i])) ==> Valid()
    {
      var i := 0;
      while i < |args|
        invariant 0 <= i <= |args|
        invariant entries == MergeEach(Attr, old(entries), args[..i])
        invariant old(Valid()) && (forall j :: 0 <= j < |args| ==> Settled(args[j])) ==> Valid()
      {
        MergeEachAppend(Attr, old(entries), args[..i], args[i]);
        assert args[..i + 1] == args[..i] + [args[i]];
        MergeFrom(args[i]);
        i := i + 1;
      }
      assert args[..i] == args;
    }

    /** pget: the keys of the path looked up one after the other, None as soon
      * as one is missing. */
    method PGet(path: string, sep: char) returns (r: Result<Option<Value<L>>, DictError>)
      ensures r == Get(Node(Attr, entries), PathKeys(path, sep))
    {
      var keys := PathKeys(path, sep);
      var rhs := Node(Attr, entries);
      var i := 0;
      while i < |keys|
        invariant 0 <= i <= |keys|
        invariant Get(Node(Attr, entries), keys) == Get(rhs, keys[i..])
      {
        if rhs.Leaf? {
          return Failure(AttributeError("get"));
        }
        if keys[i] !in rhs.entries {
          return Success(None);
        }
        assert keys[i..][1..] == keys[i + 1..];
        rhs := rhs.entries[keys[i]];
        i := i + 1;
      }
      return Success(Some(rhs));
    }

    /** pset: the value placed at the end of the path, creating the missing
      * AttrDicts on the way; on failure nothing has changed. */
    method PSet(path: string, value: Value<L>, sep: char) returns (err: Option<DictError>)
      modifies this
      ensures var put := Put(Node(Attr, old(entries)), PathKeys(path, sep), value);
        && (err.None? <==> put.Success?)
        && (put.Success? ==> entries == put.value)
        && (put.Failure? ==> err == Some(put.error) && entries == old(entries))
      ensures old(Valid()) && err.None? ==>
        Get(Node(Attr, old(entries)), PathKeys(path, sep)).Success? &&
        Get(Node(Attr, entries), PathKeys(path, sep))
          == Success(Some(Placed(Get(Node(Attr, old(entries)), PathKeys(path, sep)).value, value)))
      ensures old(Valid()) && Settled(value) ==> Valid()
    {
      var keys := PathKeys(path, sep);
      var root := Node(Attr, entries);
      var put := Put(root, keys, value);
      if put.Failure? {
        return Some(put.error);
      }
      if old(Valid()) {
        PutThenGet(root, keys, value);
        if Settled(value) {
          PutKeepsNormal(root, keys, value);
        }
      }
      entries := put.value;
      return None;
    }

    /** walk(): every non-AttrDict entry with its path under "root". */
    /** walk(): every pair is a non-AttrDict value under its key path, prefixed
      * by "root"; in a valid dictionary every leaf is among them. */
    function Walk(): (r: set<(seq<string>, Value<L>)>)
      reads this
      ensures forall p, v :: (p, v) in r ==>
        |p| > 1 && p[..1] == ["root"] && Get(Node(Attr, entries), p[1..]) == Success(Some(v)) && !IsAttrDict(v)
      ensures Valid() ==> forall keys, x :: keys != [] && Get(Node(Attr, entries), keys) == Success(Some(Leaf(x))) ==>
        (["root"] + keys, Leaf(x)) in r
    {
      var root := Node(Attr, entries);
      WalkSoundAll(["root"], root);
      WalkCompleteAll(["root"], root);
      assert Valid() ==> Normal(root);
      Nested.Walk(["root"], root)
    }
  }
}
