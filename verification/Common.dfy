/** Small vocabulary shared by every module: options, results, identifier lists and ordered dictionaries. */
module Common {

  /** Every identifier of the pipeline (evidence, mentions, links, claims, segments) is a string. */
  type Id = string

  datatype Option<+T> = None | Some(value: T)

  datatype Result<+T, +E> = Ok(value: T) | Err(error: E)

  /** No element occurs twice. */
  predicate Distinct<T(==)>(s: seq<T>) {
    forall i, j :: 0 <= i < j < |s| ==> s[i] != s[j]
  }

  /** `set(s)`. */
  function ToSet<T(==)>(s: seq<T>): set<T> {
    set x | x in s
  }

  /** `list(dict.fromkeys(s))`: the first occurrence of every element, in order. */
  function Dedup<T(==)>(s: seq<T>): (r: seq<T>)
    ensures Distinct(r)
    ensures ToSet(r) == ToSet(s)
    ensures Distinct(s) ==> r == s
  {
    if s == [] then
      []
    else
      var front, x := s[..|s| - 1], s[|s| - 1];
      assert s == front + [x];
      var d := Dedup(front);
      assert ToSet(s) == ToSet(front) + {x};
      if x in d then
        assert x in ToSet(front);
        assert exists i :: 0 <= i < |front| && s[i] == s[|s| - 1];
        d
      else
        assert ToSet(d + [x]) == ToSet(d) + {x};
        d + [x]
  }

  /** `[x for x in s if p(x)]` */
  function Filter<T(!new)>(s: seq<T>, p: T -> bool): (r: seq<T>)
    ensures forall x :: x in r <==> x in s && p(x)
  {
    if s == [] then []
    else if p(s[0]) then [s[0]] + Filter(s[1..], p)
    else Filter(s[1..], p)
  }

  /**
   * `r` is `s` without the elements that fail `p`: every position of `s` that passes gives one element of `r`, in the
   * same order. An independent meaning of the list comprehension.
   */
  ghost predicate Selects<T(!new)>(r: seq<T>, s: seq<T>, p: T -> bool) {
    exists at: seq<nat> :: Positions(at, r, s) && forall k: nat :: k in at <==> k < |s| && p(s[k])
  }

  /** `at` lists, in increasing order, where in `s` the elements of `r` stand. */
  ghost predicate Positions<T>(at: seq<nat>, r: seq<T>, s: seq<T>) {
    && |at| == |r|
    && (forall i :: 0 <= i < |at| ==> at[i] < |s| && s[at[i]] == r[i])
    && (forall i, j :: 0 <= i < j < |at| ==> at[i] < at[j])
  }

  lemma {:induction false} FilterSelects<T(!new)>(s: seq<T>, p: T -> bool)
    ensures Selects(Filter(s, p), s, p)
  {
    if s == [] {
      var none: seq<nat> := [];
      assert Positions(none, Filter(s, p), s);
    } else {
      FilterSelects(s[1..], p);
      var at: seq<nat> :| Positions(at, Filter(s[1..], p), s[1..])
                          && forall k: nat :: k in at <==> k < |s| - 1 && p(s[1..][k]);
      ShiftedPositions(at, Filter(s[1..], p), s, p);
    }
  }

  lemma ShiftedPositions<T(!new)>(at: seq<nat>, r: seq<T>, s: seq<T>, p: T -> bool)
    requires s != [] && Positions(at, r, s[1..]) && forall k: nat :: k in at <==> k < |s| - 1 && p(s[1..][k])
    ensures Selects(if p(s[0]) then [s[0]] + r else r, s, p)
  {
    var later := Later(at);
    if p(s[0]) {
      assert Positions([0] + later, [s[0]] + r, s);
    } else {
      assert Positions(later, r, s);
    }
    forall k: nat | k > 0 ensures k in later <==> k < |s| && p(s[k]) {
      assert k - 1 in at <==> k - 1 < |s| - 1 && p(s[1..][k - 1]);
    }
  }

  ghost function Later(at: seq<nat>): (later: seq<nat>)
    ensures |later| == |at| && forall i :: 0 <= i < |at| ==> later[i] == at[i] + 1
    ensures forall k: nat :: k in later <==> k > 0 && k - 1 in at
  {
    if at == [] then [] else [at[0] + 1] + Later(at[1..])
  }

  lemma {:induction false} FilterAppend<T(!new)>(s: seq<T>, x: T, p: T -> bool)
    ensures Filter(s + [x], p) == Filter(s, p) + if p(x) then [x] else []
  {
    if s == [] {
      assert s + [x] == [x] && [x][1..] == [];
    } else {
      assert (s + [x])[1..] == s[1..] + [x];
      FilterAppend(s[1..], x, p);
    }
  }

  lemma {:induction false} FilterConcat<T(!new)>(s: seq<T>, t: seq<T>, p: T -> bool)
    ensures Filter(s + t, p) == Filter(s, p) + Filter(t, p)
  {
    if s == [] {
      assert s + t == t;
    } else {
      assert (s + t)[1..] == s[1..] + t;
      FilterConcat(s[1..], t, p);
    }
  }

  lemma {:induction false} FilterSize<T(!new)>(s: seq<T>, p: T -> bool)
    ensures |Filter(s, p)| <= |s|
    ensures (forall x :: x in s ==> p(x)) ==> |Filter(s, p)| == |s|
    ensures (forall x :: x in s ==> !p(x)) ==> Filter(s, p) == []
  {
    if s != [] {
      FilterSize(s[1..], p);
    }
  }

  lemma {:induction false} FilterAgrees<T(!new)>(s: seq<T>, p: T -> bool, q: T -> bool)
    requires forall x :: x in s ==> p(x) == q(x)
    ensures Filter(s, p) == Filter(s, q)
  {
    if s != [] {
      FilterAgrees(s[1..], p, q);
    }
  }

  /** Deduplication goes by first occurrences: appending to a list only appends to its deduplication. */
  lemma {:induction false} DedupGrows<T>(s: seq<T>, t: seq<T>)
    ensures Dedup(s) <= Dedup(s + t)
  {
    if t == [] {
      assert s + t == s;
    } else {
      var u := s + t;
      assert u[..|u| - 1] == s + t[..|t| - 1];
      DedupGrows(s, t[..|t| - 1]);
    }
  }

  /** A Python dictionary with string keys. */
  type Dict<V> = Table<Id, V>

  /** A dictionary that remembers insertion order: its keys in that order and its contents. */
  datatype Table<K(==,!new), V> = Dict(keys: seq<K>, at: map<K, V>) {

    ghost predicate Valid() {
      Distinct(keys) && ToSet(keys) == at.Keys
    }

    /** `d[k] = v`: a new key goes to the end, a known key keeps its place. */
    function Put(k: K, v: V): (d: Table<K, V>)
      requires Valid()
      ensures d.Valid()
      ensures d.at == at[k := v]
    {
      var grown := if k in at then keys else keys + [k];
      assert k in at ==> k in ToSet(keys);
      assert k !in at ==> k !in ToSet(keys) && ToSet(keys + [k]) == ToSet(keys) + {k};
      Dict(grown, at[k := v])
    }

    /** `{k: v for k, v in d.items() if k not in dropped}`. */
    function Without(dropped: set<K>): (d: Table<K, V>)
      requires Valid()
      ensures d.Valid()
      ensures d.at == at - dropped
    {
      KeepOnlyProperties(keys, at.Keys - dropped);
      var kept := KeepOnly(keys, at.Keys - dropped);
      assert ToSet(kept) == (at - dropped).Keys;
      Dict(kept, at - dropped)
    }

    /** `list(d.values())`. */
    function Values(): (vs: seq<V>)
      requires Valid()
      ensures |vs| == |keys|
      ensures forall i :: 0 <= i < |keys| ==> vs[i] == at[KeyAt(i)]
    {
      seq(|keys|, i requires 0 <= i < |keys| => at[KeyAt(i)])
    }

    function KeyAt(i: int): (k: K)
      requires Valid() && 0 <= i < |keys|
      ensures k in at && k == keys[i]
    {
      assert keys[i] in ToSet(keys);
      keys[i]
    }
  }

  /** The elements of `s` that belong to `wanted`, in order. */
  function KeepOnly<T(==,!new)>(s: seq<T>, wanted: set<T>): (r: seq<T>)
    ensures ToSet(r) == ToSet(s) * wanted
    ensures forall x :: x in r <==> x in s && x in wanted
  {
    if s == [] then
      []
    else
      assert s == [s[0]] + s[1..];
      var rest := KeepOnly(s[1..], wanted);
      assert ToSet(s) == {s[0]} + ToSet(s[1..]);
      if s[0] in wanted then
        assert ToSet([s[0]] + rest) == {s[0]} + ToSet(rest);
        [s[0]] + rest
      else rest
  }

  lemma {:induction false} KeepOnlyProperties<T(!new)>(s: seq<T>, wanted: set<T>)
    ensures Distinct(s) ==> Distinct(KeepOnly(s, wanted))
    ensures |KeepOnly(s, wanted)| <= |s|
  {
    if s != [] {
      KeepOnlyProperties(s[1..], wanted);
      if Distinct(s) {
        assert s[0] !in s[1..];
        assert s[0] !in KeepOnly(s[1..], wanted);
      }
    }
  }
}
