/**
 * `LogfmtFormatter._format_value` and the registry it consults
 * (`custom_formatters`, with `add_custom_formatter` and
 * `remove_custom_formatter`), as functions over values.  The formatter
 * class runs the same algorithm as a method and is proved equal to
 * `Expand`.
 *
 * `fuel` is the number of nested expansion calls the interpreter's
 * recursion limit still allows; when it runs out the expansion fails with
 * RecursionError, as the interpreter would.
 */
module Expansion {
  import opened Runtime
  import opened OrderedMap
  import opened Values
  import opened ValueFormatters

  /** A flattened value: paths to strings, in the order they were produced. */
  type Flat = seq<(string, string)>

  // ---------------------------------------------------------------------
  // The registry as a dictionary keyed by predicate

  /** Dictionary key equality: the same class, the same function object, or equal tuples. */
  predicate SameKey(a: Key, b: Key)
  {
    match a
    case ClassKey(c) => b.ClassKey? && b.cls == c
    case FuncKey(i, _) => b.FuncKey? && b.id == i
    case TupleKey(cs) => b.TupleKey? && b.classes == cs
  }

  predicate DistinctKeys(reg: Registry)
  {
    forall i, j :: 0 <= i < j < |reg| ==> !SameKey(reg[i].0, reg[j].0)
  }

  /** Where `k` stands in the registry, if it is there. */
  function IndexOf(reg: Registry, k: Key): (r: Option<nat>)
    ensures r.Some? ==> r.value < |reg| && SameKey(reg[r.value].0, k)
    ensures r.Some? ==> forall j :: 0 <= j < r.value ==> !SameKey(reg[j].0, k)
    ensures r.None? ==> forall j :: 0 <= j < |reg| ==> !SameKey(reg[j].0, k)
    decreases |reg|
  {
    if reg == [] then None
    else if SameKey(reg[0].0, k) then Some(0)
    else
      match IndexOf(reg[1..], k)
      case None => None
      case Some(i) => Some(i + 1)
  }

  /** `custom_formatters[k] = r`: a present key keeps its place (and its key object), a new one goes last. */
  function Register(reg: Registry, k: Key, r: Rule): Registry
  {
    match IndexOf(reg, k)
    case Some(i) => reg[i := (reg[i].0, r)]
    case None => reg + [(k, r)]
  }

  /** `del custom_formatters[k]` */
  function Unregister(reg: Registry, k: Key): Result<Registry>
  {
    match IndexOf(reg, k)
    case Some(i) => Ok(reg[..i] + reg[i + 1..])
    case None => Err(KeyError)
  }

  // ---------------------------------------------------------------------
  // Dispatch

  /**
   * Whether the key of a registry entry claims `v`: a class by
   * `isinstance`, anything else by calling it, which fails for a key that
   * cannot be called.
   */
  function Matches(k: Key, v: Value): Result<bool>
  {
    match k
    case ClassKey(c) => Ok(IsInstance(v, c))
    case FuncKey(_, test) => Ok(test(v))
    case TupleKey(_) => Err(TypeError)
  }

  /**
   * Scans the first `n` entries newest first: the index of the first
   * entry whose key claims `v`, none if no key does, or the error that
   * calling a key raised.
   */
  function FindRule(reg: Registry, v: Value, n: nat): (r: Result<Option<nat>>)
    requires n <= |reg|
    ensures r.Ok? && r.value.Some? ==> r.value.value < n
    ensures r.Err? ==> r.error == TypeError
  {
    if n == 0 then Ok(None)
    else
      match Matches(reg[n - 1].0, v)
      case Err(e) => Err(e)
      case Ok(b) => if b then Ok(Some(n - 1)) else FindRule(reg, v, n - 1)
  }

  function ChildPath(prefix: string, key: string, asGetitem: bool): string
  {
    if asGetitem then prefix + "[" + key + "]" else prefix + "." + key
  }

  // ---------------------------------------------------------------------
  // Expansion

  /** `_format_value(v, prefix)` */
  function Expand(reg: Registry, v: Value, prefix: string, fuel: nat): Result<Flat>
    decreases fuel, 1
  {
    if v.Str? then Ok([(prefix, v.s)])
    else if fuel == 0 then Err(RecursionError)
    else
      match FindRule(reg, v, |reg|)
      case Err(e) => Err(e)
      case Ok(None) => Ok([(prefix, Show(v))])
      case Ok(Some(i)) => ApplyAndExpand(reg, reg[i].1, v, prefix, fuel)
  }

  /** Runs rule `r` on `v` and expands the children it gives back. */
  function ApplyAndExpand(reg: Registry, r: Rule, v: Value, prefix: string, fuel: nat): Result<Flat>
    requires fuel > 0
    decreases fuel, 0
  {
    match ApplyRule(r, v)
    case Raises(e) => Err(e)
    case Children(kids, g) => ExpandChildren(reg, kids, prefix, g, fuel - 1, [])
  }

  /** Expands the children in order, merging each result into `base` with `update`. */
  function ExpandChildren(reg: Registry, kids: seq<(string, Value)>, prefix: string, asGetitem: bool,
                          fuel: nat, base: Flat): Result<Flat>
    decreases fuel, 2, |kids|
  {
    if kids == [] then Ok(base)
    else
      match Expand(reg, kids[0].1, ChildPath(prefix, kids[0].0, asGetitem), fuel)
      case Err(e) => Err(e)
      case Ok(sub) => ExpandChildren(reg, kids[1..], prefix, asGetitem, fuel, Update(base, sub))
  }

  // ---------------------------------------------------------------------
  // The newest-first scan

  /** Every entry at an index in `lo..hi` declines `v`. */
  predicate Declines(reg: Registry, v: Value, lo: nat, hi: nat)
    requires hi <= |reg|
  {
    forall j :: lo <= j < hi ==> Matches(reg[j].0, v) == Ok(false)
  }

  lemma DeclinesSplit(reg: Registry, v: Value, lo: nat, hi: nat)
    requires lo < hi <= |reg|
    ensures Declines(reg, v, lo, hi) <==> Declines(reg, v, lo, hi - 1) && Matches(reg[hi - 1].0, v) == Ok(false)
  {
  }

  /** The scan picks entry `i` exactly when `i` claims the value and every newer entry declines it. */
  lemma {:induction false} FindRulePicks(reg: Registry, v: Value, n: nat, i: nat)
    requires i < n <= |reg|
    ensures FindRule(reg, v, n) == Ok(Some(i)) <==> Matches(reg[i].0, v) == Ok(true) && Declines(reg, v, i + 1, n)
  {
    if i < n - 1 {
      FindRulePicks(reg, v, n - 1, i);
      DeclinesSplit(reg, v, i + 1, n);
    }
  }

  /** The scan finds nothing exactly when every entry declines the value. */
  lemma {:induction false} FindRuleNone(reg: Registry, v: Value, n: nat)
    requires n <= |reg|
    ensures FindRule(reg, v, n) == Ok(None) <==> Declines(reg, v, 0, n)
  {
    if n > 0 {
      FindRuleNone(reg, v, n - 1);
      DeclinesSplit(reg, v, 0, n);
    }
  }

  /** The scan fails exactly when calling some key raises and every newer entry declines the value. */
  lemma {:induction false} FindRuleFails(reg: Registry, v: Value, n: nat)
    requires n <= |reg|
    ensures FindRule(reg, v, n).Err? <==>
      exists i :: 0 <= i < n && Matches(reg[i].0, v).Err? && Declines(reg, v, i + 1, n)
  {
    if n > 0 {
      FindRuleFails(reg, v, n - 1);
      if FindRule(reg, v, n).Err? {
        if Matches(reg[n - 1].0, v).Err? {
          assert Declines(reg, v, n, n);
        } else {
          var i :| 0 <= i < n - 1 && Matches(reg[i].0, v).Err? && Declines(reg, v, i + 1, n - 1);
          DeclinesSplit(reg, v, i + 1, n);
        }
      } else {
        forall i | 0 <= i < n && Matches(reg[i].0, v).Err? ensures !Declines(reg, v, i + 1, n) {
          if i < n - 1 {
            DeclinesSplit(reg, v, i + 1, n);
          }
        }
      }
    }
  }

  /**
   * A string comes back whole under the prefix without consulting the
   * registry; a value no entry claims comes back as its `str()`.
   */
  lemma ExpandBaseCases(reg: Registry, v: Value, prefix: string, fuel: nat)
    ensures v.Str? ==> Expand(reg, v, prefix, fuel) == Ok([(prefix, v.s)])
    ensures !v.Str? && fuel > 0 && (forall j :: 0 <= j < |reg| ==> Matches(reg[j].0, v) == Ok(false))
      ==> Expand(reg, v, prefix, fuel) == Ok([(prefix, Show(v))])
  {
    FindRuleNone(reg, v, |reg|);
  }

  // ---------------------------------------------------------------------
  // Shape of the result

  /** Every path of an expansion starts with the prefix, and no path occurs twice. */
  lemma {:induction false} ExpandShape(reg: Registry, v: Value, prefix: string, fuel: nat)
    ensures Expand(reg, v, prefix, fuel).Ok? ==>
      var f := Expand(reg, v, prefix, fuel).value;
      Unique(f) && forall k :: k in Keys(f) ==> prefix <= k
    decreases fuel, 1
  {
    if !v.Str? && fuel > 0 {
      match FindRule(reg, v, |reg|)
      case Ok(Some(i)) => ApplyShape(reg, reg[i].1, v, prefix, fuel);
      case _ =>
    }
  }

  /**
   * When rule `r` applies, every path of the result starts with the path of
   * one of the children the rule gave back: `prefix[key]` for a bracketed
   * rule, `prefix.key` otherwise.
   */
  lemma {:induction false} ApplyShape(reg: Registry, r: Rule, v: Value, prefix: string, fuel: nat)
    requires fuel > 0
    ensures ApplyAndExpand(reg, r, v, prefix, fuel).Ok? ==>
      var f := ApplyAndExpand(reg, r, v, prefix, fuel).value;
      && ApplyRule(r, v).Children?
      && Unique(f)
      && forall k :: k in Keys(f) ==>
           exists j :: 0 <= j < |ApplyRule(r, v).kids|
             && ChildPath(prefix, ApplyRule(r, v).kids[j].0, ApplyRule(r, v).asGetitem) <= k
    decreases fuel, 0
  {
    match ApplyRule(r, v)
    case Children(kids, g) =>
      ChildrenShape(reg, kids, prefix, g, fuel - 1, []);
    case Raises(_) =>
  }

  lemma {:induction false} ChildrenShape(reg: Registry, kids: seq<(string, Value)>, prefix: string, g: bool,
                                         fuel: nat, base: Flat)
    requires Unique(base)
    ensures ExpandChildren(reg, kids, prefix, g, fuel, base).Ok? ==>
      var f := ExpandChildren(reg, kids, prefix, g, fuel, base).value;
      && Unique(f)
      && forall k :: k in Keys(f) ==>
           k in Keys(base) || exists j :: 0 <= j < |kids| && ChildPath(prefix, kids[j].0, g) <= k
    decreases fuel, 2, |kids|
  {
    if kids != [] {
      var c := ChildPath(prefix, kids[0].0, g);
      ExpandShape(reg, kids[0].1, c, fuel);
      match Expand(reg, kids[0].1, c, fuel)
      case Ok(sub) =>
        var base' := Update(base, sub);
        UpdateUnique(base, sub);
        UpdateKeysFrom(base, sub);
        ChildrenShape(reg, kids[1..], prefix, g, fuel, base');
        if ExpandChildren(reg, kids, prefix, g, fuel, base).Ok? {
          var f := ExpandChildren(reg, kids, prefix, g, fuel, base).value;
          forall k | k in Keys(f)
            ensures k in Keys(base) || exists j :: 0 <= j < |kids| && ChildPath(prefix, kids[j].0, g) <= k
          {
            if k !in Keys(base) {
              if k in Keys(sub) {
                assert ChildPath(prefix, kids[0].0, g) <= k;
              } else {
                var j :| 0 <= j < |kids[1..]| && ChildPath(prefix, kids[1..][j].0, g) <= k;
                assert kids[1..][j] == kids[j + 1];
              }
            }
          }
        }
      case Err(_) =>
    }
  }

  /** The keys of an expansion under `prefix` all start with it (the form the line assembly uses). */
  lemma ExpandKeysPrefixed(reg: Registry, v: Value, prefix: string, fuel: nat)
    ensures Expand(reg, v, prefix, fuel).Ok? ==>
      forall k :: k in Keys(Expand(reg, v, prefix, fuel).value) ==> prefix <= k
  {
    ExpandShape(reg, v, prefix, fuel);
  }

  // ---------------------------------------------------------------------
  // Termination of the shipped rules

  predicate ShippedRulesOnly(reg: Registry)
  {
    forall i :: 0 <= i < |reg| ==> !reg[i].1.Custom?
  }

  /**
   * `default_formatters` is a dictionary of five distinct keys, newest
   * last, each mapped to a shipped rule.
   */
  lemma ShippedRegistryDistinct()
    ensures |DefaultFormatters| == 5 && DistinctKeys(DefaultFormatters) && ShippedRulesOnly(DefaultFormatters)
  {
  }

  /**
   * With only the shipped rules in the registry, an expansion allowed more
   * nested calls than the value is deep never hits the recursion limit, and
   * any such allowance gives the same result.
   */
  lemma {:induction false} ExpandFuelSuffices(reg: Registry, v: Value, prefix: string, fuel: nat, fuel': nat)
    requires ShippedRulesOnly(reg)
    requires fuel > Depth(v) && fuel' > Depth(v)
    ensures Expand(reg, v, prefix, fuel) == Expand(reg, v, prefix, fuel')
    ensures Expand(reg, v, prefix, fuel) != Err(RecursionError)
    decreases fuel, 1
  {
    if !v.Str? {
      match FindRule(reg, v, |reg|)
      case Ok(Some(i)) => ApplyFuelSuffices(reg, reg[i].1, v, prefix, fuel, fuel');
      case _ =>
    }
  }

  lemma {:induction false} ApplyFuelSuffices(reg: Registry, r: Rule, v: Value, prefix: string, fuel: nat, fuel': nat)
    requires ShippedRulesOnly(reg) && !r.Custom? && !v.Str?
    requires fuel > Depth(v) && fuel' > Depth(v)
    ensures ApplyAndExpand(reg, r, v, prefix, fuel) == ApplyAndExpand(reg, r, v, prefix, fuel')
    ensures ApplyAndExpand(reg, r, v, prefix, fuel) != Err(RecursionError)
    decreases fuel, 0
  {
    match ApplyRule(r, v)
    case Children(kids, g) =>
      ShippedRulesYieldComponents(r, v);
      forall i | 0 <= i < |kids| ensures Depth(kids[i].1) < Depth(v) {
        ComponentDepth(kids[i].1, v);
      }
      ChildrenFuelSuffices(reg, kids, prefix, g, fuel - 1, fuel' - 1, []);
    case Raises(_) =>
  }

  lemma {:induction false} ChildrenFuelSuffices(reg: Registry, kids: seq<(string, Value)>, prefix: string, g: bool,
                                                fuel: nat, fuel': nat, base: Flat)
    requires ShippedRulesOnly(reg)
    requires forall i :: 0 <= i < |kids| ==> Depth(kids[i].1) < fuel && Depth(kids[i].1) < fuel'
    ensures ExpandChildren(reg, kids, prefix, g, fuel, base) == ExpandChildren(reg, kids, prefix, g, fuel', base)
    ensures ExpandChildren(reg, kids, prefix, g, fuel, base) != Err(RecursionError)
    decreases fuel, 2, |kids|
  {
    if kids != [] {
      var c := ChildPath(prefix, kids[0].0, g);
      ExpandFuelSuffices(reg, kids[0].1, c, fuel, fuel');
      match Expand(reg, kids[0].1, c, fuel)
      case Ok(sub) =>
        ChildrenFuelSuffices(reg, kids[1..], prefix, g, fuel, fuel', Update(base, sub));
      case Err(_) =>
    }
  }

  // ---------------------------------------------------------------------
  // Children succeed together or fail with the first failure

  lemma {:induction false} ChildrenOutcome(reg: Registry, kids: seq<(string, Value)>, prefix: string, g: bool,
                                           fuel: nat, base: Flat)
    ensures ExpandChildren(reg, kids, prefix, g, fuel, base).Ok? <==>
      forall i :: 0 <= i < |kids| ==> Expand(reg, kids[i].1, ChildPath(prefix, kids[i].0, g), fuel).Ok?
    ensures ExpandChildren(reg, kids, prefix, g, fuel, base).Err? ==>
      exists i :: 0 <= i < |kids| && Expand(reg, kids[i].1, ChildPath(prefix, kids[i].0, g), fuel)
                                     == Err(ExpandChildren(reg, kids, prefix, g, fuel, base).error)
    decreases |kids|
  {
    if kids != [] {
      var c := ChildPath(prefix, kids[0].0, g);
      match Expand(reg, kids[0].1, c, fuel)
      case Ok(sub) =>
        ChildrenOutcome(reg, kids[1..], prefix, g, fuel, Update(base, sub));
        forall i | 0 <= i < |kids[1..]| ensures kids[1..][i] == kids[i + 1] { }
        if ExpandChildren(reg, kids, prefix, g, fuel, base).Err? {
          var i :| 0 <= i < |kids[1..]| && Expand(reg, kids[1..][i].1, ChildPath(prefix, kids[1..][i].0, g), fuel)
                                            == Err(ExpandChildren(reg, kids, prefix, g, fuel, base).error);
          assert kids[1..][i] == kids[i + 1];
        }
      case Err(_) =>
    }
  }

  // ---------------------------------------------------------------------
  // What the merged children hold

  /** Each child expanded on its own, in order, or the first child's error. */
  function ExpandEach(reg: Registry, kids: seq<(string, Value)>, prefix: string, asGetitem: bool,
                      fuel: nat): (r: Result<seq<Flat>>)
    ensures r.Ok? ==> |r.value| == |kids|
    ensures r.Ok? ==>
      forall i :: 0 <= i < |kids| ==> Expand(reg, kids[i].1, ChildPath(prefix, kids[i].0, asGetitem), fuel) == Ok(r.value[i])
    decreases |kids|
  {
    if kids == [] then Ok([])
    else
      match Expand(reg, kids[0].1, ChildPath(prefix, kids[0].0, asGetitem), fuel)
      case Err(e) => Err(e)
      case Ok(sub) =>
        match ExpandEach(reg, kids[1..], prefix, asGetitem, fuel)
        case Err(e) => Err(e)
        case Ok(subs) =>
          assert forall i :: 0 < i < |kids| ==> kids[i] == kids[1..][i - 1];
          Ok([sub] + subs)
  }

  /**
   * The children loop is the same as expanding every child on its own and
   * then merging the expansions into `base` one after the other with
   * `update`.
   */
  lemma {:induction false} ChildrenMerge(reg: Registry, kids: seq<(string, Value)>, prefix: string, g: bool,
                                         fuel: nat, base: Flat)
    ensures ExpandChildren(reg, kids, prefix, g, fuel, base) ==
      match ExpandEach(reg, kids, prefix, g, fuel)
      case Err(e) => Err(e)
      case Ok(subs) => Ok(UpdateEach(base, subs))
    decreases |kids|
  {
    if kids != [] {
      match Expand(reg, kids[0].1, ChildPath(prefix, kids[0].0, g), fuel)
      case Err(_) =>
      case Ok(sub) =>
        ChildrenMerge(reg, kids[1..], prefix, g, fuel, Update(base, sub));
        match ExpandEach(reg, kids[1..], prefix, g, fuel)
        case Err(_) =>
        case Ok(subs) =>
          assert ([sub] + subs)[0] == sub && ([sub] + subs)[1..] == subs;
      }
  }

  /**
   * What a successful children loop holds: the keys of `base` stay where
   * they are; a path holds its text from the last child whose expansion
   * has it, overwriting in place what an earlier child or `base` wrote; a
   * path no child has keeps its value from `base`.
   */
  lemma ChildrenContents(reg: Registry, kids: seq<(string, Value)>, prefix: string, g: bool,
                         fuel: nat, base: Flat, k: string)
    requires ExpandChildren(reg, kids, prefix, g, fuel, base).Ok?
    ensures ExpandEach(reg, kids, prefix, g, fuel).Ok?
    ensures var r, subs := ExpandChildren(reg, kids, prefix, g, fuel, base).value, ExpandEach(reg, kids, prefix, g, fuel).value;
      && |r| >= |base|
      && (forall i :: 0 <= i < |base| ==> r[i].0 == base[i].0)
      && ((forall i :: 0 <= i < |subs| ==> k !in Keys(subs[i])) ==> Get(r, k) == Get(base, k))
      && (forall i :: 0 <= i < |subs| && k in Keys(subs[i]) && (forall j :: i < j < |subs| ==> k !in Keys(subs[j])) ==>
            Get(r, k) == Get(subs[i], k))
  {
    ChildrenMerge(reg, kids, prefix, g, fuel, base);
    var subs := ExpandEach(reg, kids, prefix, g, fuel).value;
    UpdateEachGet(base, subs, k);
    UpdateEachKeepsPositions(base, subs);
    forall i | 0 <= i < |subs| && k in Keys(subs[i]) ensures Get(subs[i], k) == Some(LastValue(subs[i], k)) {
      ExpandShape(reg, kids[i].1, ChildPath(prefix, kids[i].0, g), fuel);
      GetIsLastValue(subs[i], k);
    }
  }

  /** Different keys under one prefix give different child paths. */
  lemma ChildPathInjective(prefix: string, a: string, b: string, g: bool)
    requires ChildPath(prefix, a, g) == ChildPath(prefix, b, g)
    ensures a == b
  {
    var x := ChildPath(prefix, a, g);
    if g {
      assert a == x[|prefix| + 1..|x| - 1] == b;
    } else {
      assert a == x[|prefix| + 1..] == b;
    }
  }

  /** The fields children that are all strings write: one per child, in order. */
  function StringChildren(prefix: string, kids: seq<(string, Value)>, g: bool): Flat
    requires forall i :: 0 <= i < |kids| ==> kids[i].1.Str?
  {
    seq(|kids|, i requires 0 <= i < |kids| => (ChildPath(prefix, kids[i].0, g), kids[i].1.s))
  }

  /** Children that are strings under distinct keys are written in order, each under its own path. */
  lemma {:induction false} StringChildrenMerge(reg: Registry, kids: seq<(string, Value)>, prefix: string, g: bool,
                                               fuel: nat, base: Flat)
    requires Unique(kids) && forall i :: 0 <= i < |kids| ==> kids[i].1.Str?
    requires forall i :: 0 <= i < |kids| ==> ChildPath(prefix, kids[i].0, g) !in Keys(base)
    ensures ExpandChildren(reg, kids, prefix, g, fuel, base) == Ok(base + StringChildren(prefix, kids, g))
    decreases |kids|
  {
    if kids == [] {
      assert base + StringChildren(prefix, kids, g) == base;
    } else {
      var x := (ChildPath(prefix, kids[0].0, g), kids[0].1.s);
      var rest := kids[1..];
      var base' := base + [x];
      assert Update(base, [x]) == base' by {
        var none: Flat := [];
        assert [x][..0] == none;
        AssignAbsent(base, x.0, x.1);
      }
      assert forall j :: 0 <= j < |rest| ==> rest[j] == kids[j + 1];
      assert Unique(rest);
      forall j | 0 <= j < |rest| ensures ChildPath(prefix, rest[j].0, g) !in Keys(base') {
        assert Keys(base') == Keys(base) + [x.0];
        if ChildPath(prefix, rest[j].0, g) == x.0 {
          ChildPathInjective(prefix, rest[j].0, kids[0].0, g);
        }
      }
      assert Expand(reg, kids[0].1, x.0, fuel) == Ok([x]);
      StringChildrenMerge(reg, rest, prefix, g, fuel, base');
      assert StringChildren(prefix, kids, g) == [x] + StringChildren(prefix, rest, g);
      assert base + StringChildren(prefix, kids, g) == base' + StringChildren(prefix, rest, g);
    }
  }

  /**
   * A rule that hands back no children gives no fields at all; the
   * iterable rule does so for an empty list or tuple, the mapping rule for
   * an empty mapping.
   */
  lemma EmptyChildrenNoFields(reg: Registry, r: Rule, v: Value, prefix: string, fuel: nat)
    requires fuel > 0
    ensures ApplyRule(r, v).Children? && ApplyRule(r, v).kids == [] ==> ApplyAndExpand(reg, r, v, prefix, fuel) == Ok([])
    ensures r.FormatIterable? && (v == List([]) || v == Tuple([])) ==> ApplyAndExpand(reg, r, v, prefix, fuel) == Ok([])
    ensures r.FormatMapping? && v == Dict([]) ==> ApplyAndExpand(reg, r, v, prefix, fuel) == Ok([])
  {
    assert Enumerated([]) == [] && StrKeyed([]) == [];
    assert FromPairs<string, Value>([]) == [];
  }

  // ---------------------------------------------------------------------
  // The shipped registry as written

  /** Values the shipped registry can expand: strings, and dataclass instances and namedtuples of those. */
  predicate RecordsOfStrings(v: Value)
  {
    match v
    case Str(_) => true
    case Dataclass(_, fs) => forall i :: 0 <= i < |fs| ==> RecordsOfStrings(fs[i].1)
    case NamedTuple(_, fs) => forall i :: 0 <= i < |fs| ==> RecordsOfStrings(fs[i].1)
    case _ => false
  }

  /**
   * Newest first, the shipped registry tries the namedtuple lambda, then
   * the dataclass lambda, then calls the tuple of namespace classes, which
   * raises TypeError.  So every value other than a string, a dataclass
   * instance or a namedtuple raises TypeError: ints, lists and dicts
   * included, and the Mapping and Iterable entries are never reached.
   */
  lemma ShippedRegistryReachesTuple(v: Value, prefix: string, fuel: nat)
    requires fuel > 0 && !v.Str?
    ensures FindRule(DefaultFormatters, v, |DefaultFormatters|) ==
      if v.NamedTuple? then Ok(Some(4)) else if v.Dataclass? then Ok(Some(3)) else Err(TypeError)
    ensures !v.NamedTuple? && !v.Dataclass? ==> Expand(DefaultFormatters, v, prefix, fuel) == Err(TypeError)
  {
    var reg := DefaultFormatters;
    assert |reg| == 5;
    assert reg[4].0 == FuncKey(NamedTupleLambda, IsNamedTupleInstance);
    assert reg[3].0 == FuncKey(DataclassLambda, IsDataclassInstance);
    assert reg[2].0 == TupleKey(NamespaceClasses);
    assert Matches(reg[4].0, v) == Ok(v.NamedTuple?);
    assert Matches(reg[3].0, v) == Ok(v.Dataclass?);
    assert Matches(reg[2].0, v) == Err(TypeError);
    assert FindRule(reg, v, 3) == Err(TypeError);
    assert FindRule(reg, v, 4) == if v.Dataclass? then Ok(Some(3)) else Err(TypeError);
  }

  /** The shipped registry expands a dataclass instance or a namedtuple field by field, with `.` paths. */
  lemma ShippedRegistryRecord(v: Value, prefix: string, fuel: nat)
    requires (v.Dataclass? || v.NamedTuple?) && WellFormed(v) && fuel > 0
    ensures Expand(DefaultFormatters, v, prefix, fuel)
            == ExpandChildren(DefaultFormatters, v.fields, prefix, false, fuel - 1, [])
  {
    ShippedRegistryReachesTuple(v, prefix, fuel);
    FormatDataclassFields(v);
    FormatNamedTupleFields(v);
  }

  /**
   * With the shipped registry, given enough recursion depth, an expansion
   * succeeds exactly on strings and on dataclass instances and namedtuples
   * whose fields succeed in turn; every other value raises TypeError.
   */
  lemma {:induction false} ShippedRegistryOutcome(v: Value, prefix: string, fuel: nat)
    requires WellFormed(v) && fuel > Depth(v)
    ensures Expand(DefaultFormatters, v, prefix, fuel).Ok? <==> RecordsOfStrings(v)
    ensures !RecordsOfStrings(v) ==> Expand(DefaultFormatters, v, prefix, fuel) == Err(TypeError)
    decreases v, 1
  {
    if !v.Str? {
      ShippedRegistryReachesTuple(v, prefix, fuel);
      if v.Dataclass? || v.NamedTuple? {
        ShippedRegistryRecord(v, prefix, fuel);
        ShippedRegistryFields(v, prefix, fuel);
      }
    }
  }

  lemma {:induction false} ShippedRegistryFields(v: Value, prefix: string, fuel: nat)
    requires (v.Dataclass? || v.NamedTuple?) && WellFormed(v) && fuel > Depth(v)
    ensures var e := ExpandChildren(DefaultFormatters, v.fields, prefix, false, fuel - 1, []);
      (e.Ok? <==> RecordsOfStrings(v)) && (!RecordsOfStrings(v) ==> e == Err(TypeError))
    decreases v, 0
  {
    var reg := DefaultFormatters;
    var fs := v.fields;
    ChildrenOutcome(reg, fs, prefix, false, fuel - 1, []);
    forall i | 0 <= i < |fs|
      ensures var e := Expand(reg, fs[i].1, ChildPath(prefix, fs[i].0, false), fuel - 1);
              (e.Ok? <==> RecordsOfStrings(fs[i].1)) && (!RecordsOfStrings(fs[i].1) ==> e == Err(TypeError))
    {
      assert Component(fs[i].1, v);
      ComponentDepth(fs[i].1, v);
      ShippedRegistryOutcome(fs[i].1, ChildPath(prefix, fs[i].0, false), fuel - 1);
    }
  }

  // ---------------------------------------------------------------------
  // Registry updates

  /**
   * With the shipped registry, a dataclass instance or namedtuple whose
   * fields are strings is written as one `prefix.name` field per
   * attribute, in field order.
   */
  lemma ShippedRecordOfStrings(v: Value, prefix: string, fuel: nat)
    requires v.Dataclass? || v.NamedTuple?
    requires Unique(v.fields) && forall i :: 0 <= i < |v.fields| ==> v.fields[i].1.Str?
    requires fuel > 0
    ensures Expand(DefaultFormatters, v, prefix, fuel)
            == Ok(seq(|v.fields|, i requires 0 <= i < |v.fields| => (prefix + "." + v.fields[i].0, v.fields[i].1.s)))
  {
    assert WellFormed(v);
    ShippedRegistryRecord(v, prefix, fuel);
    StringChildrenMerge(DefaultFormatters, v.fields, prefix, false, fuel - 1, []);
    assert [] + StringChildren(prefix, v.fields, false) == StringChildren(prefix, v.fields, false);
    assert StringChildren(prefix, v.fields, false)
           == seq(|v.fields|, i requires 0 <= i < |v.fields| => (prefix + "." + v.fields[i].0, v.fields[i].1.s));
  }

  /**
   * When the newest entry of a registry is the iterable rule under
   * `Iterable`, a list of strings is written as one `prefix[i]` field per
   * element, in order.
   */
  lemma IterableOfStrings(reg: Registry, items: seq<Value>, prefix: string, fuel: nat)
    requires reg != [] && reg[|reg| - 1].0 == ClassKey(IterableABC) && reg[|reg| - 1].1.FormatIterable?
    requires (forall i :: 0 <= i < |items| ==> items[i].Str?) && fuel > 0
    ensures Expand(reg, List(items), prefix, fuel)
            == Ok(seq(|items|, i requires 0 <= i < |items| => (prefix + "[" + IntStr(i) + "]", items[i].s)))
  {
    var v := List(items);
    var kids := Enumerated(items);
    assert FindRule(reg, v, |reg|) == Ok(Some(|reg| - 1));
    EnumeratedDistinct(items);
    FromPairsDistinct(kids);
    assert ApplyRule(reg[|reg| - 1].1, v) == Children(kids, true);
    StringChildrenMerge(reg, kids, prefix, true, fuel - 1, []);
    assert Expand(reg, v, prefix, fuel) == ExpandChildren(reg, kids, prefix, true, fuel - 1, []);
    assert [] + StringChildren(prefix, kids, true) == StringChildren(prefix, kids, true);
    assert StringChildren(prefix, kids, true)
           == seq(|items|, i requires 0 <= i < |items| => (prefix + "[" + IntStr(i) + "]", items[i].s));
  }

  /** The paths a two-element list of strings gets under `m`. */
  lemma TwoElementPaths(items: seq<Value>)
    requires items == [Str("x"), Str("y")]
    ensures seq(|items|, i requires 0 <= i < |items| => ("m" + "[" + IntStr(i) + "]", items[i].s))
            == [("m[0]", "x"), ("m[1]", "y")]
  {
    var got := seq(|items|, i requires 0 <= i < |items| => ("m" + "[" + IntStr(i) + "]", items[i].s));
    assert IntStr(0) == [Digit(0)] == "0";
    assert IntStr(1) == [Digit(1)] == "1";
    assert |got| == 2;
    assert "m" + "[" + "0" + "]" == "m[0]" && "m" + "[" + "1" + "]" == "m[1]";
    assert got[0] == ("m[0]", "x");
    assert got[1] == ("m[1]", "y");
  }

  /** A registry holding only the iterable rule writes `["x", "y"]` under `m` as `m[0]=x m[1]=y`. */
  lemma IterableExample()
    ensures Expand([(ClassKey(IterableABC), FormatIterable)], List([Str("x"), Str("y")]), "m", 2)
            == Ok([("m[0]", "x"), ("m[1]", "y")])
  {
    IterableOfStrings([(ClassKey(IterableABC), FormatIterable)], [Str("x"), Str("y")], "m", 2);
    TwoElementPaths([Str("x"), Str("y")]);
  }

  /**
   * Registering keeps every present key where it stands; a key already
   * present gets the new rule in its place, a new key goes last; no other
   * entry changes, and keys stay distinct.
   */
  lemma RegisterPlacement(reg: Registry, k: Key, r: Rule)
    requires DistinctKeys(reg)
    ensures var reg' := Register(reg, k, r);
      && DistinctKeys(reg')
      && |reg'| == (if IndexOf(reg, k).Some? then |reg| else |reg| + 1)
      && (forall i :: 0 <= i < |reg| ==> reg'[i].0 == reg[i].0)
      && (forall i :: 0 <= i < |reg| && !SameKey(reg[i].0, k) ==> reg'[i] == reg[i])
      && (forall i :: 0 <= i < |reg| && SameKey(reg[i].0, k) ==> reg'[i].1 == r)
      && (IndexOf(reg, k).None? ==> reg'[|reg|] == (k, r))
  {
    var reg' := Register(reg, k, r);
    match IndexOf(reg, k)
    case Some(i) =>
      forall a, b | 0 <= a < b < |reg'| ensures !SameKey(reg'[a].0, reg'[b].0) {
        assert reg'[a].0 == reg[a].0 && reg'[b].0 == reg[b].0;
      }
      forall j | 0 <= j < |reg| && SameKey(reg[j].0, k) ensures j == i {
        if j > i {
          SameKeySymmetric(reg[j].0, k);
          SameKeyTransitive(reg[i].0, k, reg[j].0);
        }
      }
    case None =>
      forall a, b | 0 <= a < b < |reg'| ensures !SameKey(reg'[a].0, reg'[b].0) {
        if b == |reg| {
          SameKeySymmetric(reg[a].0, k);
        }
      }
  }

  lemma SameKeySymmetric(a: Key, b: Key)
    ensures SameKey(a, b) <==> SameKey(b, a)
  {
  }

  lemma SameKeyTransitive(a: Key, b: Key, c: Key)
    requires SameKey(a, b) || SameKey(b, a)
    requires SameKey(b, c) || SameKey(c, b)
    ensures SameKey(a, c)
  {
  }

  /**
   * Removing a key that is not registered raises KeyError; removing one
   * that is drops exactly its entry and keeps the others in order.
   */
  lemma UnregisterRemovesOnlyIt(reg: Registry, k: Key)
    requires DistinctKeys(reg)
    ensures IndexOf(reg, k).None? <==> Unregister(reg, k) == Err(KeyError)
    ensures Unregister(reg, k).Ok? ==>
      var reg' := Unregister(reg, k).value;
      && |reg'| == |reg| - 1
      && (forall i :: 0 <= i < |reg'| ==> !SameKey(reg'[i].0, k))
      && DistinctKeys(reg')
      && exists i :: 0 <= i < |reg| && SameKey(reg[i].0, k) && reg' == reg[..i] + reg[i + 1..]
  {
    match IndexOf(reg, k)
    case Some(i) =>
      var reg' := reg[..i] + reg[i + 1..];
      forall j | 0 <= j < |reg'| ensures !SameKey(reg'[j].0, k) {
        var o := if j < i then j else j + 1;
        assert reg'[j] == reg[o];
        if SameKey(reg[o].0, k) {
          SameKeySymmetric(reg[i].0, k);
          SameKeyTransitive(reg[if o < i then o else i].0, k, reg[if o < i then i else o].0);
        }
      }
      forall a, b | 0 <= a < b < |reg'| ensures !SameKey(reg'[a].0, reg'[b].0) {
        var oa := if a < i then a else a + 1;
        var ob := if b < i then b else b + 1;
        assert reg'[a] == reg[oa] && reg'[b] == reg[ob];
      }
    case None =>
  }

  /** Registering a new key and removing it again gives back the registry as it was. */
  lemma RegisterThenUnregister(reg: Registry, k: Key, r: Rule)
    requires IndexOf(reg, k).None?
    ensures Unregister(Register(reg, k, r), k) == Ok(reg)
  {
    var reg' := reg + [(k, r)];
    IndexOfAppended(reg, k, r);
    assert reg'[..|reg|] + reg'[|reg| + 1..] == reg;
  }

  lemma IndexOfAppended(reg: Registry, k: Key, r: Rule)
    requires IndexOf(reg, k).None?
    ensures IndexOf(reg + [(k, r)], k) == Some(|reg|)
    decreases |reg|
  {
    if reg != [] {
      assert (reg + [(k, r)])[1..] == reg[1..] + [(k, r)];
      IndexOfAppended(reg[1..], k, r);
    } else {
      assert SameKey(k, k) by {
        match k
        case ClassKey(_) =>
        case FuncKey(_, _) =>
        case TupleKey(_) =>
      }
    }
  }

  /**
   * A newly registered rule takes priority: for every non-string value its
   * key claims, expansion runs that rule, ahead of every entry registered
   * before it.
   */
  lemma RegisteredRuleWins(reg: Registry, k: Key, r: Rule, v: Value, prefix: string, fuel: nat)
    requires IndexOf(reg, k).None?
    requires Matches(k, v) == Ok(true) && !v.Str? && fuel > 0
    ensures FindRule(Register(reg, k, r), v, |reg| + 1) == Ok(Some(|reg|))
    ensures Expand(Register(reg, k, r), v, prefix, fuel) == ApplyAndExpand(Register(reg, k, r), r, v, prefix, fuel)
  {
  }
}
