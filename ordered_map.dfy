/**
 * Python's `dict` as the formatter uses it: an insertion-ordered map.
 * Assigning to a present key replaces its value where it stands, assigning
 * to an absent key appends it, `update` assigns the entries of another
 * dictionary one after the other, and `del` removes an entry and leaves the
 * others in order.  A dictionary is a sequence of key/value pairs here.
 */
module OrderedMap {
  import opened Runtime

  function Keys<K, V>(m: seq<(K, V)>): (ks: seq<K>)
    ensures |ks| == |m|
    ensures forall i :: 0 <= i < |m| ==> ks[i] == m[i].0
  {
    seq(|m|, i requires 0 <= i < |m| => m[i].0)
  }

  function ValuesOf<K, V>(m: seq<(K, V)>): (vs: seq<V>)
    ensures |vs| == |m|
    ensures forall i :: 0 <= i < |m| ==> vs[i] == m[i].1
  {
    seq(|m|, i requires 0 <= i < |m| => m[i].1)
  }

  /** A well-formed dictionary holds every key once. */
  predicate Unique<K(==), V>(m: seq<(K, V)>)
  {
    forall i, j :: 0 <= i < j < |m| ==> m[i].0 != m[j].0
  }

  /** `m.get(k)`: the value stored under the first occurrence of `k`. */
  function Get<K(==), V>(m: seq<(K, V)>, k: K): (r: Option<V>)
    ensures r.Some? <==> k in Keys(m)
  {
    if m == [] then None
    else if m[0].0 == k then Some(m[0].1)
    else
      assert Keys(m) == [m[0].0] + Keys(m[1..]);
      Get(m[1..], k)
  }

  /** `m[k] = v` */
  function Assign<K(==), V>(m: seq<(K, V)>, k: K, v: V): seq<(K, V)>
  {
    if m == [] then [(k, v)]
    else if m[0].0 == k then [(k, v)] + m[1..]
    else [m[0]] + Assign(m[1..], k, v)
  }

  /** `m.update(o)`: the entries of `o` assigned in order (the last one last). */
  function Update<K(==), V>(m: seq<(K, V)>, o: seq<(K, V)>): seq<(K, V)>
    decreases |o|
  {
    if o == [] then m
    else Assign(Update(m, o[..|o| - 1]), o[|o| - 1].0, o[|o| - 1].1)
  }

  /** `dict(ps)`, or a dict comprehension yielding the pairs `ps` in order. */
  function FromPairs<K(==), V>(ps: seq<(K, V)>): seq<(K, V)>
  {
    Update([], ps)
  }

  /** `del m[k]` on a dictionary that holds `k` once. */
  function Without<K(==), V>(m: seq<(K, V)>, k: K): seq<(K, V)>
  {
    if m == [] then []
    else if m[0].0 == k then Without(m[1..], k)
    else [m[0]] + Without(m[1..], k)
  }

  /** The entries of `m` whose keys are not in `s`, in order. */
  function Exclude<K(==), V>(m: seq<(K, V)>, s: set<K>): seq<(K, V)>
  {
    if m == [] then []
    else if m[0].0 in s then Exclude(m[1..], s)
    else [m[0]] + Exclude(m[1..], s)
  }

  /** The keys of `ks` in order of their first occurrence. */
  function Dedup<K(==)>(ks: seq<K>): seq<K>
    decreases |ks|
  {
    if ks == [] then []
    else if ks[|ks| - 1] in ks[..|ks| - 1] then Dedup(ks[..|ks| - 1])
    else Dedup(ks[..|ks| - 1]) + [ks[|ks| - 1]]
  }

  /** The value of the last pair of `o` whose key is `k`. */
  function LastValue<K(==), V>(o: seq<(K, V)>, k: K): V
    requires k in Keys(o)
    decreases |o|
  {
    if o[|o| - 1].0 == k then o[|o| - 1].1
    else
      assert Keys(o) == Keys(o[..|o| - 1]) + [o[|o| - 1].0];
      LastValue(o[..|o| - 1], k)
  }

  // ---------------------------------------------------------------------
  // Assignment

  /** Assigning replaces a present key in place and appends an absent one. */
  lemma {:induction false} AssignKeys<K, V>(m: seq<(K, V)>, k: K, v: V)
    ensures Keys(Assign(m, k, v)) == if k in Keys(m) then Keys(m) else Keys(m) + [k]
  {
    if m != [] {
      var a := Assign(m, k, v);
      assert Keys(m) == [m[0].0] + Keys(m[1..]);
      if m[0].0 != k {
        AssignKeys(m[1..], k, v);
        assert a == [m[0]] + Assign(m[1..], k, v);
        assert Keys(a) == [m[0].0] + Keys(Assign(m[1..], k, v));
      } else {
        assert a == [(k, v)] + m[1..];
        assert Keys(a) == [k] + Keys(m[1..]);
      }
    }
  }

  lemma {:induction false} AssignGet<K, V>(m: seq<(K, V)>, k: K, v: V, k': K)
    ensures Get(Assign(m, k, v), k') == if k' == k then Some(v) else Get(m, k')
  {
    if m != [] && m[0].0 != k {
      AssignGet(m[1..], k, v, k');
      assert Assign(m, k, v)[1..] == Assign(m[1..], k, v);
    } else if m != [] {
      assert Assign(m, k, v)[1..] == m[1..];
    }
  }

  lemma AssignAbsent<K, V>(m: seq<(K, V)>, k: K, v: V)
    requires k !in Keys(m)
    ensures Assign(m, k, v) == m + [(k, v)]
  {
    if m != [] {
      assert Keys(m) == [m[0].0] + Keys(m[1..]);
      AssignAbsent(m[1..], k, v);
    }
  }

  lemma AssignUnique<K, V>(m: seq<(K, V)>, k: K, v: V)
    requires Unique(m)
    ensures Unique(Assign(m, k, v))
  {
    AssignKeys(m, k, v);
    var a := Assign(m, k, v);
    forall i, j | 0 <= i < j < |a| ensures a[i].0 != a[j].0 {
      assert Keys(a)[i] == a[i].0 && Keys(a)[j] == a[j].0;
      if k !in Keys(m) && j == |m| {
        assert Keys(m)[i] == m[i].0;
      }
    }
  }

  /** Assignment never moves the keys already present. */
  lemma AssignKeepsPositions<K, V>(m: seq<(K, V)>, k: K, v: V)
    ensures |Assign(m, k, v)| >= |m|
    ensures forall i :: 0 <= i < |m| ==> Assign(m, k, v)[i].0 == m[i].0
  {
    AssignKeys(m, k, v);
    var a := Assign(m, k, v);
    forall i | 0 <= i < |m| ensures a[i].0 == m[i].0 {
      assert Keys(a)[i] == Keys(m)[i];
    }
  }

  // ---------------------------------------------------------------------
  // Update

  lemma DedupMembers<K>(ks: seq<K>)
    ensures forall x :: x in Dedup(ks) <==> x in ks
    decreases |ks|
  {
    if ks != [] {
      DedupMembers(ks[..|ks| - 1]);
      assert ks == ks[..|ks| - 1] + [ks[|ks| - 1]];
    }
  }

  /** The keys of `m.update(o)`: those of `m` in place, then the new keys of `o` in first-seen order. */
  lemma {:induction false} UpdateKeys<K, V>(m: seq<(K, V)>, o: seq<(K, V)>)
    requires Unique(m)
    ensures Keys(Update(m, o)) == Dedup(Keys(m) + Keys(o))
    decreases |o|
  {
    if o == [] {
      assert Keys(m) + Keys(o) == Keys(m);
      DedupDistinct(Keys(m));
    } else {
      var o' := o[..|o| - 1];
      var p := o[|o| - 1];
      AssignKeys(Update(m, o'), p.0, p.1);
      assert Keys(m) + Keys(o) == (Keys(m) + Keys(o')) + [p.0];
      UpdateKeys(m, o');
      DedupMembers(Keys(m) + Keys(o'));
    }
  }

  lemma {:induction false} DedupDistinct<K>(ks: seq<K>)
    requires forall i, j :: 0 <= i < j < |ks| ==> ks[i] != ks[j]
    ensures Dedup(ks) == ks
    decreases |ks|
  {
    if ks != [] {
      var init, last := ks[..|ks| - 1], ks[|ks| - 1];
      forall i, j | 0 <= i < j < |init| ensures init[i] != init[j] {
        assert init[i] == ks[i] && init[j] == ks[j];
      }
      DedupDistinct(init);
      assert last !in init by {
        forall i | 0 <= i < |init| ensures init[i] != last {
          assert init[i] == ks[i];
        }
      }
      assert ks == init + [last];
    }
  }

  lemma {:induction false} UpdateGet<K, V>(m: seq<(K, V)>, o: seq<(K, V)>, k: K)
    ensures Get(Update(m, o), k) == if k in Keys(o) then Some(LastValue(o, k)) else Get(m, k)
    decreases |o|
  {
    if o != [] {
      var o' := o[..|o| - 1];
      assert Keys(o) == Keys(o') + [o[|o| - 1].0];
      UpdateGet(m, o', k);
      AssignGet(Update(m, o'), o[|o| - 1].0, o[|o| - 1].1, k);
    }
  }

  lemma {:induction false} UpdateUnique<K, V>(m: seq<(K, V)>, o: seq<(K, V)>)
    requires Unique(m)
    ensures Unique(Update(m, o))
    decreases |o|
  {
    if o != [] {
      UpdateUnique(m, o[..|o| - 1]);
      AssignUnique(Update(m, o[..|o| - 1]), o[|o| - 1].0, o[|o| - 1].1);
    }
  }

  /** `update` never moves the keys already present. */
  lemma {:induction false} UpdateKeepsPositions<K, V>(m: seq<(K, V)>, o: seq<(K, V)>)
    ensures |Update(m, o)| >= |m|
    ensures forall i :: 0 <= i < |m| ==> Update(m, o)[i].0 == m[i].0
    decreases |o|
  {
    if o != [] {
      UpdateKeepsPositions(m, o[..|o| - 1]);
      AssignKeepsPositions(Update(m, o[..|o| - 1]), o[|o| - 1].0, o[|o| - 1].1);
    }
  }

  /** Every key of `m.update(o)` comes from `m` or from `o`. */
  lemma {:induction false} UpdateKeysFrom<K, V>(m: seq<(K, V)>, o: seq<(K, V)>)
    ensures forall x :: x in Keys(Update(m, o)) <==> x in Keys(m) || x in Keys(o)
    decreases |o|
  {
    if o != [] {
      var o' := o[..|o| - 1];
      UpdateKeysFrom(m, o');
      AssignKeys(Update(m, o'), o[|o| - 1].0, o[|o| - 1].1);
      assert Keys(o) == Keys(o') + [o[|o| - 1].0];
    }
  }

  /** A dictionary built from pairs with distinct keys holds exactly those pairs, in order. */
  lemma {:induction false} FromPairsDistinct<K, V>(ps: seq<(K, V)>)
    requires Unique(ps)
    ensures FromPairs(ps) == ps
    decreases |ps|
  {
    if ps != [] {
      var ps' := ps[..|ps| - 1];
      FromPairsDistinct(ps');
      assert ps[|ps| - 1].0 !in Keys(ps') by {
        forall i | 0 <= i < |ps'| ensures Keys(ps')[i] != ps[|ps| - 1].0 {
          assert ps[i].0 != ps[|ps| - 1].0;
        }
      }
      AssignAbsent(ps', ps[|ps| - 1].0, ps[|ps| - 1].1);
      assert ps == ps' + [ps[|ps| - 1]];
    }
  }

  // ---------------------------------------------------------------------
  // Removal

  lemma {:induction false} WithoutKeys<K, V>(m: seq<(K, V)>, k: K)
    ensures forall x :: x in Keys(Without(m, k)) <==> x in Keys(m) && x != k
  {
    if m != [] {
      WithoutKeys(m[1..], k);
      assert Keys(m) == [m[0].0] + Keys(m[1..]);
      if m[0].0 != k {
        assert Keys(Without(m, k)) == [m[0].0] + Keys(Without(m[1..], k));
      }
    }
  }

  /** Removing the keys of `s` one after the other removes exactly them. */
  lemma {:induction false} WithoutAfterExclude<K, V>(m: seq<(K, V)>, s: set<K>, k: K)
    ensures Without(Exclude(m, s), k) == Exclude(m, s + {k})
  {
    if m != [] {
      WithoutAfterExclude(m[1..], s, k);
    }
  }

  /** Only the keys actually present matter to `Exclude`. */
  lemma {:induction false} ExcludePresent<K, V>(m: seq<(K, V)>, s: set<K>, s': set<K>)
    requires forall x :: x in Keys(m) ==> (x in s <==> x in s')
    ensures Exclude(m, s) == Exclude(m, s')
  {
    if m != [] {
      assert Keys(m) == [m[0].0] + Keys(m[1..]);
      ExcludePresent(m[1..], s, s');
    }
  }

  lemma {:induction false} ExcludeKeys<K, V>(m: seq<(K, V)>, s: set<K>)
    ensures forall x :: x in Keys(Exclude(m, s)) <==> x in Keys(m) && x !in s
  {
    if m != [] {
      ExcludeKeys(m[1..], s);
      assert Keys(m) == [m[0].0] + Keys(m[1..]);
      if m[0].0 !in s {
        assert Keys(Exclude(m, s)) == [m[0].0] + Keys(Exclude(m[1..], s));
      }
    }
  }

  lemma UniqueCons<K, V>(x: (K, V), t: seq<(K, V)>)
    requires x.0 !in Keys(t) && Unique(t)
    ensures Unique([x] + t)
  {
    var c := [x] + t;
    forall i, j | 0 <= i < j < |c| ensures c[i].0 != c[j].0 {
      if i == 0 {
        assert Keys(t)[j - 1] == c[j].0;
      } else {
        assert c[i] == t[i - 1] && c[j] == t[j - 1];
      }
    }
  }

  lemma {:induction false} ExcludeUnique<K, V>(m: seq<(K, V)>, s: set<K>)
    requires Unique(m)
    ensures Unique(Exclude(m, s))
  {
    if m != [] {
      assert Unique(m[1..]) by {
        forall i, j | 0 <= i < j < |m[1..]| ensures m[1..][i].0 != m[1..][j].0 {
          assert m[1..][i] == m[i + 1] && m[1..][j] == m[j + 1];
        }
      }
      ExcludeUnique(m[1..], s);
      if m[0].0 !in s {
        ExcludeKeys(m[1..], s);
        assert m[0].0 !in Keys(m[1..]) by {
          forall i | 0 <= i < |m[1..]| ensures Keys(m[1..])[i] != m[0].0 {
            assert m[1 + i].0 != m[0].0;
          }
        }
        UniqueCons(m[0], Exclude(m[1..], s));
      }
    }
  }

  /** Every value of `m.update(o)` was a value of `m` or of `o`. */
  lemma {:induction false} UpdateValuesFrom<K, V>(m: seq<(K, V)>, o: seq<(K, V)>)
    ensures forall x :: x in ValuesOf(Update(m, o)) ==> x in ValuesOf(m) || x in ValuesOf(o)
    decreases |o|
  {
    if o != [] {
      var o' := o[..|o| - 1];
      UpdateValuesFrom(m, o');
      AssignValuesFrom(Update(m, o'), o[|o| - 1].0, o[|o| - 1].1);
      assert ValuesOf(o) == ValuesOf(o') + [o[|o| - 1].1];
    }
  }

  lemma {:induction false} AssignValuesFrom<K, V>(m: seq<(K, V)>, k: K, v: V)
    ensures forall x :: x in ValuesOf(Assign(m, k, v)) ==> x in ValuesOf(m) || x == v
  {
    if m != [] {
      var a, vm := Assign(m, k, v), ValuesOf(m);
      assert vm == [m[0].1] + ValuesOf(m[1..]);
      if m[0].0 == k {
        assert ValuesOf(a) == [v] + ValuesOf(m[1..]);
      } else {
        var t := Assign(m[1..], k, v);
        AssignValuesFrom(m[1..], k, v);
        assert ValuesOf(a) == [m[0].1] + ValuesOf(t);
      }
    }
  }

  /** Excluding no keys leaves the dictionary as it is. */
  lemma {:induction false} ExcludeNothing<K, V>(m: seq<(K, V)>)
    ensures Exclude(m, {}) == m
  {
    if m != [] {
      ExcludeNothing(m[1..]);
    }
  }

  /** A key survives exclusion with its value exactly when it is not excluded. */
  lemma {:induction false} GetExclude<K, V>(m: seq<(K, V)>, s: set<K>, k: K)
    ensures Get(Exclude(m, s), k) == if k in s then None else Get(m, k)
  {
    if m != [] {
      GetExclude(m[1..], s, k);
    }
  }

  /** In a well-formed dictionary the first and the last pair with a key are the same pair. */
  lemma {:induction false} GetUnique<K, V>(o: seq<(K, V)>, i: nat)
    requires Unique(o) && i < |o|
    ensures Get(o, o[i].0) == Some(o[i].1)
    ensures LastValue(o, o[i].0) == o[i].1
  {
    if i > 0 {
      assert o[1..][i - 1] == o[i];
      GetUnique(o[1..], i - 1);
    }
    if i < |o| - 1 {
      assert o[..|o| - 1][i] == o[i];
      GetUnique(o[..|o| - 1], i);
    }
  }

  /** In a well-formed dictionary, looking a key up finds the last value stored under it. */
  lemma GetIsLastValue<K, V>(o: seq<(K, V)>, k: K)
    requires Unique(o) && k in Keys(o)
    ensures Get(o, k) == Some(LastValue(o, k))
  {
    var i :| 0 <= i < |o| && Keys(o)[i] == k;
    GetUnique(o, i);
  }

  /** Assigning to a key that first occurs at `i` replaces that pair in place. */
  lemma {:induction false} AssignInPlace<K, V>(m: seq<(K, V)>, i: nat, v: V)
    requires i < |m| && forall j :: 0 <= j < i ==> m[j].0 != m[i].0
    ensures Assign(m, m[i].0, v) == m[i := (m[i].0, v)]
  {
    if i > 0 {
      assert m[1..][i - 1] == m[i];
      AssignInPlace(m[1..], i - 1, v);
      assert m[i := (m[i].0, v)] == [m[0]] + m[1..][i - 1 := (m[i].0, v)];
    }
  }

  // ---------------------------------------------------------------------
  // A run of updates

  /** `m.update(o)` for each dictionary `o` of `os`, in order. */
  function UpdateEach<K(==), V>(m: seq<(K, V)>, os: seq<seq<(K, V)>>): seq<(K, V)>
    decreases |os|
  {
    if os == [] then m else UpdateEach(Update(m, os[0]), os[1..])
  }

  /** A key no dictionary of the run has keeps its old value. */
  lemma {:induction false} UpdateEachAbsent<K, V>(m: seq<(K, V)>, os: seq<seq<(K, V)>>, k: K)
    requires forall i :: 0 <= i < |os| ==> k !in Keys(os[i])
    ensures Get(UpdateEach(m, os), k) == Get(m, k)
    decreases |os|
  {
    if os != [] {
      assert k !in Keys(os[0]);
      UpdateGet(m, os[0], k);
      assert forall j :: 0 <= j < |os| - 1 ==> os[1..][j] == os[j + 1];
      UpdateEachAbsent(Update(m, os[0]), os[1..], k);
    }
  }

  /** A key holds its value from the last dictionary of the run that has it. */
  lemma {:induction false} UpdateEachLast<K, V>(m: seq<(K, V)>, os: seq<seq<(K, V)>>, k: K, i: nat)
    requires i < |os| && k in Keys(os[i])
    requires forall j :: i < j < |os| ==> k !in Keys(os[j])
    ensures Get(UpdateEach(m, os), k) == Some(LastValue(os[i], k))
    decreases |os|
  {
    var rest := os[1..];
    assert forall j :: 0 <= j < |rest| ==> rest[j] == os[j + 1];
    if i > 0 {
      UpdateEachLast(Update(m, os[0]), rest, k, i - 1);
    } else {
      UpdateGet(m, os[0], k);
      UpdateEachAbsent(Update(m, os[0]), rest, k);
    }
  }

  /**
   * After a run of updates a key holds its value from the last dictionary
   * that has it, or its old value when none has it.
   */
  lemma UpdateEachGet<K, V>(m: seq<(K, V)>, os: seq<seq<(K, V)>>, k: K)
    ensures (forall i :: 0 <= i < |os| ==> k !in Keys(os[i])) ==> Get(UpdateEach(m, os), k) == Get(m, k)
    ensures forall i :: 0 <= i < |os| && k in Keys(os[i]) && (forall j :: i < j < |os| ==> k !in Keys(os[j])) ==>
      Get(UpdateEach(m, os), k) == Some(LastValue(os[i], k))
  {
    if forall i :: 0 <= i < |os| ==> k !in Keys(os[i]) {
      UpdateEachAbsent(m, os, k);
    }
    forall i | 0 <= i < |os| && k in Keys(os[i]) && (forall j :: i < j < |os| ==> k !in Keys(os[j]))
      ensures Get(UpdateEach(m, os), k) == Some(LastValue(os[i], k))
    {
      UpdateEachLast(m, os, k, i);
    }
  }

  /** A run of updates keeps the old keys where they stand. */
  lemma {:induction false} UpdateEachKeepsPositions<K, V>(m: seq<(K, V)>, os: seq<seq<(K, V)>>)
    ensures |UpdateEach(m, os)| >= |m|
    ensures forall i :: 0 <= i < |m| ==> UpdateEach(m, os)[i].0 == m[i].0
    decreases |os|
  {
    if os != [] {
      UpdateKeepsPositions(m, os[0]);
      UpdateEachKeepsPositions(Update(m, os[0]), os[1..]);
    }
  }
}
