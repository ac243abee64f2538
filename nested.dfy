/** Nested string-keyed mappings as the attribute dictionary sees them: plain
  * dicts and AttrDicts holding leaf values or further mappings; the recursive
  * merge, the normalisation AttrDict applies on assignment, dotted-path get
  * and set, and the walk over leaves. */
module Nested {
  import opened Wrappers
  import opened Text

  /** The class of a mapping: a plain dict (any Mapping that is not an
    * AttrDict) or an AttrDict. */
  datatype Kind = Plain | Attr

  /** A value held in a mapping: a leaf of some opaque type L, or a mapping. */
  datatype Value<L> = Leaf(v: L) | Node(kind: Kind, entries: map<string, Value<L>>)

  /** What Python raises. */
  datatype DictError =
    | AttributeError(name: string)   // a missing attribute, or get/setdefault on a leaf
    | TypeError                      // merging a leaf into an AttrDict

  predicate IsAttrDict<L>(v: Value<L>)
  {
    v.Node? && v.kind == Attr
  }

  /** Every mapping inside v is an AttrDict: what AttrDict's own assignments build. */
  predicate Normal<L>(v: Value<L>)
    decreases v
  {
    v.Leaf? || (v.kind == Attr && forall k | k in v.entries :: Normal(v.entries[k]))
  }

  /** Every AttrDict inside v is Normal; plain dicts may hold anything. */
  predicate Settled<L>(v: Value<L>)
    decreases v
  {
    v.Leaf? || (if v.kind == Attr then Normal(v) else forall k | k in v.entries :: Settled(v.entries[k]))
  }

  /** v with the class of every mapping forgotten: its contents alone. */
  function Contents<L>(v: Value<L>): Value<L>
    decreases v
  {
    match v
    case Leaf(_) => v
    case Node(_, e) => Node(Plain, map k | k in e :: Contents(e[k]))
  }

  // ---------------------------------------------------------------- assignment

  /** What AttrDict.__setitem__ stores for a value: a plain mapping becomes an
    * AttrDict whose entries are normalised in turn; an AttrDict and a leaf
    * are stored as they are. */
  function Normalize<L>(v: Value<L>): (r: Value<L>)
    ensures r.Leaf? <==> v.Leaf?
    ensures r.Node? ==> r.kind == Attr && r.entries.Keys == v.entries.Keys
    ensures IsAttrDict(v) ==> r == v
    decreases v
  {
    match v
    case Leaf(_) => v
    case Node(kind, e) =>
      if kind == Attr then v else Node(Attr, map k | k in e :: Normalize(e[k]))
  }

  /** What m[k] = v leaves at k in a mapping of the given kind. */
  function Store<L>(kind: Kind, v: Value<L>): Value<L>
  {
    if kind == Attr then Normalize(v) else v
  }

  /** Normalising changes the class of mappings, never what they hold. */
  lemma {:induction false} NormalizeKeepsContents<L>(v: Value<L>)
    ensures Contents(Normalize(v)) == Contents(v)
    decreases v
  {
    if v.Node? && v.kind == Plain {
      forall k | k in v.entries
        ensures Contents(Normalize(v.entries[k])) == Contents(v.entries[k])
      {
        NormalizeKeepsContents(v.entries[k]);
      }
      assert Contents(Normalize(v)).entries == Contents(v).entries;
    }
  }

  /** A value whose AttrDicts are already normal is normal once stored in an
    * AttrDict. */
  lemma {:induction false} NormalizeIsNormal<L>(v: Value<L>)
    requires Settled(v)
    ensures Normal(Normalize(v))
    decreases v
  {
    if v.Node? && v.kind == Plain {
      forall k | k in v.entries
        ensures Normal(Normalize(v.entries[k]))
      {
        NormalizeIsNormal(v.entries[k]);
      }
    }
  }

  // ---------------------------------------------------------------- paths

  /** The value reached from v by looking up each key in turn, as pget does:
    * None as soon as a key is missing, AttributeError when a leaf would have
    * to be looked into. */
  function Get<L>(v: Value<L>, keys: seq<string>): (r: Result<Option<Value<L>>, DictError>)
    ensures keys == [] ==> r == Success(Some(v))
    ensures keys != [] && v.Node? && keys[0] !in v.entries ==> r == Success(None)
    ensures r.Failure? ==> r.error == AttributeError("get")
    decreases |keys|
  {
    if keys == [] then Success(Some(v))
    else if v.Leaf? then Failure(AttributeError("get"))
    else if keys[0] !in v.entries then Success(None)
    else Get(v.entries[keys[0]], keys[1..])
  }

  // ---------------------------------------------------------------- merge

  /** _merge(target, that) on a mapping target of the given kind: keys only in
    * target are kept, keys only in that are assigned, a key holding a mapping
    * on both sides is merged recursively into target's mapping (which keeps
    * its class), and any other shared key is overwritten by that's value. */
  function Merge<L>(kind: Kind, target: map<string, Value<L>>, that: Value<L>): (r: map<string, Value<L>>)
    requires that.Node?
    ensures r.Keys == target.Keys + that.entries.Keys
    decreases that
  {
    map k | k in target.Keys + that.entries.Keys ::
      if k !in that.entries then target[k]
      else if k in target && target[k].Node? && that.entries[k].Node? then
        Node(target[k].kind, Merge(target[k].kind, target[k].entries, that.entries[k]))
      else Store(kind, that.entries[k])
  }

  predicate AllMappings<L>(vs: seq<Value<L>>)
  {
    forall i :: 0 <= i < |vs| ==> vs[i].Node?
  }

  /** The keys of all the mappings in vs. */
  function KeysOf<L>(vs: seq<Value<L>>): set<string>
  {
    if vs == [] then {} else (if vs[0].Node? then vs[0].entries.Keys else {}) + KeysOf(vs[1..])
  }

  /** _merge(target, c) for each c of args, left to right. */
  function MergeEach<L>(kind: Kind, target: map<string, Value<L>>, args: seq<Value<L>>): (r: map<string, Value<L>>)
    requires AllMappings(args)
    ensures r.Keys == target.Keys + KeysOf(args)
    decreases |args|
  {
    if args == [] then target else MergeEach(kind, Merge(kind, target, args[0]), args[1..])
  }

  /** merge(a, b, *args): a fresh mapping of a's class into which a, b and
    * then each of args are merged. */
  function MergeAll<L>(a: Value<L>, b: Value<L>, args: seq<Value<L>>): (r: Value<L>)
    requires a.Node? && b.Node? && AllMappings(args)
    ensures r.Node? && r.kind == a.kind
    ensures r.entries.Keys == a.entries.Keys + b.entries.Keys + KeysOf(args)
  {
    var all := [a, b] + args;
    assert all[1..] == [b] + args && all[1..][1..] == args;
    Node(a.kind, MergeEach(a.kind, map[], all))
  }

  /** Merging a mapping into itself changes nothing: the model of the identity
    * check that skips recursing into the very same object. */
  lemma {:induction false} MergeSelf<L>(kind: Kind, m: map<string, Value<L>>, that: Value<L>)
    requires that.Node? && that.entries == m
    ensures Merge(kind, m, that) == m
    decreases that
  {
    forall k | k in m
      ensures Merge(kind, m, that)[k] == m[k]
    {
      if m[k].Node? {
        MergeSelf(m[k].kind, m[k].entries, that.entries[k]);
      }
    }
  }

  /** Merging an empty mapping changes nothing. */
  lemma MergeEmpty<L>(kind: Kind, m: map<string, Value<L>>, that: Value<L>)
    requires that.Node? && that.entries == map[]
    ensures Merge(kind, m, that) == m
  {
  }

  /** AttrDict.__setitem__ of a plain mapping builds a fresh AttrDict and
    * merges the mapping into it; that is exactly Normalize. */
  lemma MergeIntoFreshAttrDict<L>(v: Value<L>)
    requires v.Node? && v.kind == Plain
    ensures Normalize(v) == Node(Attr, Merge(Attr, map[], v))
  {
  }

  /** Into a plain dict, with no key holding a mapping on both sides, the
    * merge is dict.update: that's entries override target's. */
  lemma MergeShallowIsUpdate<L>(target: map<string, Value<L>>, that: Value<L>)
    requires that.Node?
    requires forall k | k in target && k in that.entries :: !(target[k].Node? && that.entries[k].Node?)
    ensures Merge(Plain, target, that) == target + that.entries
  {
  }

  /** Storing a value never moves or changes a leaf found along a path. */
  lemma {:induction false} NormalizeKeepsLeaf<L>(v: Value<L>, keys: seq<string>, x: L)
    requires Get(v, keys) == Success(Some(Leaf(x)))
    ensures Get(Normalize(v), keys) == Success(Some(Leaf(x)))
    decreases |keys|
  {
    if keys != [] && v.kind == Plain {
      NormalizeKeepsLeaf(v.entries[keys[0]], keys[1..], x);
    }
  }

  /** The later mapping wins: a leaf that reaches along a path is found
    * along the same path after the merge. */
  lemma {:induction false} MergeThatLeafWins<L>(kind: Kind, target: map<string, Value<L>>, that: Value<L>,
                                                 keys: seq<string>, x: L)
    requires that.Node? && Get(that, keys) == Success(Some(Leaf(x)))
    ensures Get(Node(kind, Merge(kind, target, that)), keys) == Success(Some(Leaf(x)))
    decreases |keys|
  {
    var k := keys[0];
    var w := that.entries[k];
    if |keys| == 1 {
      assert Get(w, []) == Success(Some(w));
    } else if k in target && target[k].Node? {
      MergeThatLeafWins(target[k].kind, target[k].entries, w, keys[1..], x);
    } else if kind == Attr {
      NormalizeKeepsLeaf(w, keys[1..], x);
    }
  }

  /** The earlier mapping's leaves survive wherever the later one has no
    * entry along their path. */
  lemma {:induction false} MergeTargetLeafSurvives<L>(kind: Kind, target: map<string, Value<L>>, that: Value<L>,
                                                       keys: seq<string>, x: L)
    requires that.Node?
    requires Get(Node(kind, target), keys) == Success(Some(Leaf(x)))
    requires Get(that, keys) == Success(None)
    ensures Get(Node(kind, Merge(kind, target, that)), keys) == Success(Some(Leaf(x)))
    decreases |keys|
  {
    var k := keys[0];
    if k in that.entries {
      assert |keys| > 1;
      MergeTargetLeafSurvives(target[k].kind, target[k].entries, that.entries[k], keys[1..], x);
    }
  }

  /** Merging into normal entries keeps them normal when the merged mapping's
    * own AttrDicts are normal: an AttrDict only ever holds AttrDicts. */
  lemma {:induction false} MergeKeepsNormal<L>(target: map<string, Value<L>>, that: Value<L>)
    requires forall k | k in target :: Normal(target[k])
    requires that.Node? && Settled(that)
    ensures forall k | k in Merge(Attr, target, that) :: Normal(Merge(Attr, target, that)[k])
    decreases that
  {
    var r := Merge(Attr, target, that);
    forall k | k in r
      ensures Normal(r[k])
    {
      if k in that.entries {
        var w := that.entries[k];
        if that.kind == Attr {
          assert Normal(w);
        }
        assert Settled(w);
        if k in target && target[k].Node? && w.Node? {
          assert target[k].kind == Attr;
          MergeKeepsNormal(target[k].entries, w);
          assert r[k] == Node(Attr, Merge(Attr, target[k].entries, w));
        } else {
          NormalizeIsNormal(w);
        }
      }
    }
  }

  /** Merging one more mapping at the end merges it into what came before. */
  lemma {:induction false} MergeEachAppend<L>(kind: Kind, target: map<string, Value<L>>, args: seq<Value<L>>, c: Value<L>)
    requires AllMappings(args) && c.Node?
    ensures AllMappings(args + [c])
    ensures MergeEach(kind, target, args + [c]) == Merge(kind, MergeEach(kind, target, args), c)
    decreases |args|
  {
    if args != [] {
      assert (args + [c])[1..] == args[1..] + [c];
      MergeEachAppend(kind, Merge(kind, target, args[0]), args[1..], c);
    }
  }

  /** In merge(a, b, *args, c) a leaf of the last mapping c is found along its
    * path in the result, whatever came before. */
  lemma MergeAllLastWins<L>(a: Value<L>, b: Value<L>, args: seq<Value<L>>, c: Value<L>, keys: seq<string>, x: L)
    requires a.Node? && b.Node? && AllMappings(args) && c.Node?
    requires Get(c, keys) == Success(Some(Leaf(x)))
    ensures AllMappings(args + [c])
    ensures Get(MergeAll(a, b, args + [c]), keys) == Success(Some(Leaf(x)))
  {
    MergeEachAppend(a.kind, map[], [a, b] + args, c);
    assert [a, b] + (args + [c]) == ([a, b] + args) + [c];
    MergeThatLeafWins(a.kind, MergeEach(a.kind, map[], [a, b] + args), c, keys, x);
  }

  // ---------------------------------------------------------------- pget and pset

  /** The keys of a path: surrounding whitespace stripped, then surrounding
    * separators, then split at every separator. */
  function PathKeys(path: string, sep: char): (r: seq<string>)
    ensures |r| >= 1
    ensures forall i :: 0 <= i < |r| ==> sep !in r[i]
  {
    Split(StripChar(Strip(path), sep), sep)
  }

  /** A path written by joining keys with the separator is split back into
    * those keys, when its ends carry neither whitespace nor the separator. */
  lemma PathKeysOfJoin(keys: seq<string>, sep: char)
    requires |keys| >= 1 && forall i :: 0 <= i < |keys| ==> sep !in keys[i]
    requires keys[0] != [] && !IsSpace(keys[0][0])
    requires keys[|keys| - 1] != [] && !IsSpace(keys[|keys| - 1][|keys[|keys| - 1]| - 1])
    ensures PathKeys(Join(keys, sep), sep) == keys
  {
    var s := Join(keys, sep);
    JoinEnds(keys, sep);
    assert Strip(s) == s;
    assert StripChar(s, sep) == s;
    SplitJoin(keys, sep);
  }

  /** The ends of a join are the ends of its first and last parts. */
  lemma {:induction false} JoinEnds(parts: seq<string>, sep: char)
    requires |parts| >= 1 && parts[0] != [] && parts[|parts| - 1] != []
    ensures Join(parts, sep) != []
    ensures Join(parts, sep)[0] == parts[0][0]
    ensures Join(parts, sep)[|Join(parts, sep)| - 1] == parts[|parts| - 1][|parts[|parts| - 1]| - 1]
  {
    JoinLast(parts, sep);
  }

  lemma {:induction false} JoinLast(parts: seq<string>, sep: char)
    requires |parts| >= 1 && parts[|parts| - 1] != []
    ensures |Join(parts, sep)| >= |parts[|parts| - 1]|
    ensures Join(parts, sep)[|Join(parts, sep)| - 1] == parts[|parts| - 1][|parts[|parts| - 1]| - 1]
  {
    if |parts| > 1 {
      assert parts[1..][|parts[1..]| - 1] == parts[|parts| - 1];
      JoinLast(parts[1..], sep);
    }
  }

  /** pset on mapping node with the path's keys: each intermediate key is
    * looked up with setdefault, which inserts an empty AttrDict where the key
    * is missing; at the last key an AttrDict found there absorbs the value
    * through its merge, and anything else is replaced by assignment. */
  function Put<L>(node: Value<L>, keys: seq<string>, value: Value<L>): (r: Result<map<string, Value<L>>, DictError>)
    requires node.Node? && |keys| >= 1
    ensures r.Success? ==> r.value.Keys == node.entries.Keys + {keys[0]}
    ensures r.Success? ==> forall k | k in node.entries && k != keys[0] :: r.value[k] == node.entries[k]
    ensures r.Failure? ==> r.error in {TypeError, AttributeError("get"), AttributeError("setdefault")}
    decreases |keys|
  {
    var k := keys[0];
    if |keys| == 1 then
      if k in node.entries && IsAttrDict(node.entries[k]) then
        if value.Leaf? then Failure(TypeError)
        else Success(node.entries[k := Node(Attr, Merge(Attr, node.entries[k].entries, value))])
      else Success(node.entries[k := Store(node.kind, value)])
    else
      var child := if k in node.entries then node.entries[k] else Node(Attr, map[]);
      if child.Leaf? then Failure(AttributeError(if |keys| > 2 then "setdefault" else "get"))
      else
        match Put(child, keys[1..], value)
        case Failure(e) => Failure(e)
        case Success(sub) => Success(node.entries[k := Node(child.kind, sub)])
  }

  /** What pget finds at the path after a successful pset on a normal
    * mapping: the merge of the value into the AttrDict that was there, or
    * else the value as an AttrDict stores it. */
  function Placed<L>(before: Option<Value<L>>, value: Value<L>): Value<L>
  {
    if before.Some? && before.value.Node? && value.Node? then Node(Attr, Merge(Attr, before.value.entries, value))
    else Normalize(value)
  }

  /** pset on a normal mapping fails exactly when pget of the path fails (a
    * leaf stands where a mapping is needed) or when a leaf would be merged
    * into the AttrDict at the path; otherwise pget then finds the placed
    * value. */
  lemma {:induction false} PutThenGet<L>(node: Value<L>, keys: seq<string>, value: Value<L>)
    requires Normal(node) && node.Node? && |keys| >= 1
    ensures Put(node, keys, value).Failure? <==>
      Get(node, keys).Failure? || (Get(node, keys).Success? && Get(node, keys).value.Some? &&
                                   Get(node, keys).value.value.Node? && value.Leaf?)
    ensures Put(node, keys, value).Success? ==>
      Get(Node(Attr, Put(node, keys, value).value), keys) == Success(Some(Placed(Get(node, keys).value, value)))
    decreases |keys|
  {
    var k := keys[0];
    if |keys| == 1 {
      assert Get(node, keys) == if k in node.entries then Success(Some(node.entries[k])) else Success(None);
      if Put(node, keys, value).Success? {
        var m := Put(node, keys, value).value;
        assert Get(Node(Attr, m), keys) == Get(m[k], []);
      }
    } else if k in node.entries {
      var child := node.entries[k];
      if child.Node? {
        PutThenGet(child, keys[1..], value);
      }
    } else {
      FreshPath(keys[1..], value);
    }
  }

  /** pset through missing keys builds fresh AttrDicts down to the value. */
  lemma {:induction false} FreshPath<L>(keys: seq<string>, value: Value<L>)
    requires |keys| >= 1
    ensures Put(Node(Attr, map[]), keys, value).Success?
    ensures Get(Node(Attr, Put(Node(Attr, map[]), keys, value).value), keys) == Success(Some(Normalize(value)))
    decreases |keys|
  {
    if |keys| > 1 {
      FreshPath(keys[1..], value);
    }
  }

  /** pset keeps a normal mapping normal when the value's own AttrDicts are
    * normal. */
  lemma {:induction false} PutKeepsNormal<L>(node: Value<L>, keys: seq<string>, value: Value<L>)
    requires Normal(node) && node.Node? && |keys| >= 1 && Settled(value)
    requires Put(node, keys, value).Success?
    ensures Normal(Node(Attr, Put(node, keys, value).value))
    decreases |keys|
  {
    var k := keys[0];
    var m := Put(node, keys, value).value;
    if |keys| == 1 {
      if k in node.entries && IsAttrDict(node.entries[k]) {
        MergeKeepsNormal(node.entries[k].entries, value);
        assert m[k] == Node(Attr, Merge(Attr, node.entries[k].entries, value));
      } else {
        NormalizeIsNormal(value);
      }
    } else {
      var child := if k in node.entries then node.entries[k] else Node(Attr, map[]);
      PutKeepsNormal(child, keys[1..], value);
      assert m[k] == Node(Attr, Put(child, keys[1..], value).value);
    }
  }

  /** Two paths that part at some key. */
  predicate Diverge(p: seq<string>, q: seq<string>)
  {
    exists i :: 0 <= i < |p| && i < |q| && p[i] != q[i]
  }

  /** pset leaves every path that parts from its own as it was. */
  lemma {:induction false} PutFrame<L>(node: Value<L>, keys: seq<string>, value: Value<L>, other: seq<string>)
    requires node.Node? && |keys| >= 1 && Put(node, keys, value).Success?
    requires Diverge(keys, other)
    ensures Get(Node(node.kind, Put(node, keys, value).value), other) == Get(node, other)
    decreases |keys|
  {
    var k := keys[0];
    var m := Put(node, keys, value).value;
    if other[0] != k {
    } else {
      var i :| 0 <= i < |keys| && i < |other| && keys[i] != other[i];
      assert i >= 1 && |keys| >= 2;
      var child := if k in node.entries then node.entries[k] else Node(Attr, map[]);
      assert Diverge(keys[1..], other[1..]) by {
        assert keys[1..][i - 1] != other[1..][i - 1];
      }
      PutFrame(child, keys[1..], value, other[1..]);
      assert m[k] == Node(child.kind, Put(child, keys[1..], value).value);
    }
  }

  // ---------------------------------------------------------------- walk

  /** walk(prefix) on a mapping: the path and value of every entry that is
    * not an AttrDict, descending into AttrDicts (a plain dict is yielded as
    * a value, not entered). */
  function Walk<L(==,!new)>(prefix: seq<string>, node: Value<L>): set<(seq<string>, Value<L>)>
    decreases node
  {
    if node.Leaf? then {}
    else
      var e := node.entries;
      (set k | k in e && !IsAttrDict(e[k]) :: (prefix + [k], e[k]))
      + (set k, pv | k in e && IsAttrDict(e[k]) && pv in Walk(prefix + [k], e[k]) :: pv)
  }

  /** Every pair the walk yields extends the prefix by a path along which
    * the value is found, and the value is not an AttrDict. */
  lemma {:induction false} WalkSound<L(!new)>(prefix: seq<string>, node: Value<L>, p: seq<string>, v: Value<L>)
    requires (p, v) in Walk(prefix, node)
    ensures |prefix| < |p| && p[..|prefix|] == prefix
    ensures Get(node, p[|prefix|..]) == Success(Some(v)) && !IsAttrDict(v)
    decreases node
  {
    var e := node.entries;
    if k :| k in e && !IsAttrDict(e[k]) && (p, v) == (prefix + [k], e[k]) {
      assert p[|prefix|..] == [k];
      assert Get(node, [k]) == Get(e[k], []);
    } else {
      var k :| k in e && IsAttrDict(e[k]) && (p, v) in Walk(prefix + [k], e[k]);
      WalkSound(prefix + [k], e[k], p, v);
      assert p[..|prefix|] == (prefix + [k])[..|prefix|] == prefix;
      assert p[|prefix|..] == [k] + p[|prefix| + 1..];
    }
  }

  /** In a normal mapping every leaf is yielded by the walk, under the path
    * that reaches it. */
  lemma {:induction false} WalkComplete<L(!new)>(prefix: seq<string>, node: Value<L>, keys: seq<string>, x: L)
    requires Normal(node) && keys != []
    requires Get(node, keys) == Success(Some(Leaf(x)))
    ensures (prefix + keys, Leaf(x)) in Walk(prefix, node)
    decreases node
  {
    var e := node.entries;
    var k := keys[0];
    if |keys| == 1 {
      assert e[k] == Leaf(x);
      assert prefix + keys == prefix + [k];
    } else {
      assert IsAttrDict(e[k]);
      WalkComplete(prefix + [k], e[k], keys[1..], x);
      assert prefix + [k] + keys[1..] == prefix + keys;
    }
  }

  /** WalkSound for every pair at once. */
  lemma WalkSoundAll<L(!new)>(prefix: seq<string>, node: Value<L>)
    ensures forall p, v :: (p, v) in Walk(prefix, node) ==>
      |prefix| < |p| && p[..|prefix|] == prefix && Get(node, p[|prefix|..]) == Success(Some(v)) && !IsAttrDict(v)
  {
    forall p, v | (p, v) in Walk(prefix, node)
      ensures |prefix| < |p| && p[..|prefix|] == prefix && Get(node, p[|prefix|..]) == Success(Some(v)) && !IsAttrDict(v)
    {
      WalkSound(prefix, node, p, v);
    }
  }

  /** WalkComplete for every leaf at once. */
  lemma WalkCompleteAll<L(!new)>(prefix: seq<string>, node: Value<L>)
    ensures Normal(node) ==> forall keys, x :: keys != [] && Get(node, keys) == Success(Some(Leaf(x))) ==>
      (prefix + keys, Leaf(x)) in Walk(prefix, node)
  {
    if Normal(node) {
      forall keys, x | keys != [] && Get(node, keys) == Success(Some(Leaf(x)))
        ensures (prefix + keys, Leaf(x)) in Walk(prefix, node)
      {
        WalkComplete(prefix, node, keys, x);
      }
    }
  }

  /** The walk yields each path once: two pairs with the same path carry the
    * same value. */
  lemma WalkPathsUnique<L(!new)>(prefix: seq<string>, node: Value<L>, p: seq<string>, v: Value<L>, w: Value<L>)
    requires (p, v) in Walk(prefix, node) && (p, w) in Walk(prefix, node)
    ensures v == w
  {
    WalkSound(prefix, node, p, v);
    WalkSound(prefix, node, p, w);
  }
}
