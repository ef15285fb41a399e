/**
 * The expansion rules the formatter ships with, the keys they are
 * registered under, and the registry they form (`default_formatters`).
 *
 * A rule takes a value and returns the value's children as a dictionary
 * from child key to child value, plus `as_getitem`: true when the children
 * are joined to the parent path as `parent[key]`, false for `parent.key`.
 */
module ValueFormatters {
  import opened Runtime
  import opened OrderedMap
  import opened Values

  /** A class a registry key can name. */
  datatype Class =
    | IterableABC      // collections.abc.Iterable
    | MappingABC       // collections.abc.Mapping
    | Named(name: string)

  /** `isinstance(v, c)` */
  predicate IsInstance(v: Value, c: Class)
  {
    match c
    case IterableABC => v.Str? || v.List? || v.Tuple? || v.Dict? || v.NamedTuple?
    case MappingABC => v.Dict?
    case Named(n) => n == TypeName(v) || n == "object" || (n == "tuple" && v.NamedTuple?)
  }

  /** What a rule gives back: the children and `as_getitem`, or the exception it raises. */
  datatype RuleOutput =
    | Children(kids: seq<(string, Value)>, asGetitem: bool)
    | Raises(error: Error)

  datatype Rule =
    | FormatIterable
    | FormatMapping
    | FormatNamespace
    | FormatDataclass
    | FormatNamedTuple
      /** A rule registered by the user: any function returning a dictionary and a flag, or raising. */
    | Custom(apply: Value -> RuleOutput)

  /**
   * A registry key.  A class is tested with `isinstance`; anything else is
   * called on the value.  A function object is known by its identity `id`
   * (two lambdas with the same body are different keys) and computes `test`;
   * a tuple of classes is hashable but cannot be called.
   */
  datatype Key =
    | ClassKey(cls: Class)
    | FuncKey(id: nat, test: Value -> bool)
    | TupleKey(classes: seq<Class>)

  /** The registry: a dictionary from key to rule, in registration order. */
  type Registry = seq<(Key, Rule)>

  // ---------------------------------------------------------------------
  // The rules

  /** The pairs `enumerate` yields, with the index turned into its decimal text. */
  function Enumerated(vs: seq<Value>): seq<(string, Value)>
  {
    seq(|vs|, i requires 0 <= i < |vs| => (IntStr(i), vs[i]))
  }

  /** What iterating over `v` yields: items, the keys of a mapping, the characters of a string. */
  function Iteration(v: Value): Option<seq<Value>>
  {
    match v
    case Str(s) => Some(seq(|s|, i requires 0 <= i < |s| => Str([s[i]])))
    case List(items) => Some(items)
    case Tuple(items) => Some(items)
    case Dict(entries) => Some(Keys(entries))
    case NamedTuple(_, fs) => Some(ValuesOf(fs))
    case _ => None
  }

  /** `format_iterable`: the items under their positions. */
  function ApplyFormatIterable(v: Value): RuleOutput
  {
    match Iteration(v)
    case None => Raises(TypeError)
    case Some(elems) => Children(FromPairs(Enumerated(elems)), true)
  }

  /** `str(key)` paired with each value of a mapping, in iteration order. */
  function StrKeyed(entries: seq<(Value, Value)>): seq<(string, Value)>
  {
    seq(|entries|, i requires 0 <= i < |entries| => (Show(entries[i].0), entries[i].1))
  }

  /** `format_mapping`: the values under `str` of their keys. */
  function ApplyFormatMapping(v: Value): RuleOutput
  {
    if v.Dict? then Children(FromPairs(StrKeyed(v.entries)), true) else Raises(AttributeError)
  }

  /** `format_namespace`: the instance's `__dict__`. */
  function ApplyFormatNamespace(v: Value): RuleOutput
  {
    match v
    case Namespace(_, attrs) => Children(FromPairs(attrs), false)
    case Dataclass(_, fs) => Children(FromPairs(fs), false)
    case _ => Raises(AttributeError)
  }

  /** `format_dataclass`: the declared fields and their values. */
  function ApplyFormatDataclass(v: Value): RuleOutput
  {
    if v.Dataclass? then Children(FromPairs(v.fields), false) else Raises(TypeError)
  }

  /** `format_namedtuple`: `_asdict()`. */
  function ApplyFormatNamedTuple(v: Value): RuleOutput
  {
    if v.NamedTuple? then Children(FromPairs(v.fields), false) else Raises(AttributeError)
  }

  function ApplyRule(r: Rule, v: Value): RuleOutput
  {
    match r
    case FormatIterable => ApplyFormatIterable(v)
    case FormatMapping => ApplyFormatMapping(v)
    case FormatNamespace => ApplyFormatNamespace(v)
    case FormatDataclass => ApplyFormatDataclass(v)
    case FormatNamedTuple => ApplyFormatNamedTuple(v)
    case Custom(f) =>
      match f(v)
      case Children(kids, g) => Children(FromPairs(kids), g)
      case Raises(e) => Raises(e)
  }

  // ---------------------------------------------------------------------
  // The shipped registry

  /** `dataclasses.is_dataclass(value) and not isinstance(value, type)` */
  predicate IsDataclassInstance(v: Value)
  {
    v.Dataclass?
  }

  /** `isinstance(value, tuple) and hasattr(value, "_asdict")` */
  predicate IsNamedTupleInstance(v: Value)
  {
    v.NamedTuple?
  }

  const NamespaceClasses: seq<Class> := [
    Named("types.SimpleNamespace"),
    Named("argparse.Namespace"),
    Named("multiprocessing.dummy.Namespace"),
    Named("multiprocessing.managers.Namespace")
  ]

  /** Identities of the two lambdas of the shipped registry. */
  const DataclassLambda: nat := 0
  const NamedTupleLambda: nat := 1

  /**
   * `default_formatters`, in registration order.  The namespace entry is
   * keyed by a tuple of classes, which is not a class.
   */
  const DefaultFormatters: Registry := [
    (ClassKey(IterableABC), FormatIterable),
    (ClassKey(MappingABC), FormatMapping),
    (TupleKey(NamespaceClasses), FormatNamespace),
    (FuncKey(DataclassLambda, IsDataclassInstance), FormatDataclass),
    (FuncKey(NamedTupleLambda, IsNamedTupleInstance), FormatNamedTuple)
  ]

  // ---------------------------------------------------------------------
  // What each rule yields

  lemma EnumeratedDistinct(vs: seq<Value>)
    ensures Unique(Enumerated(vs))
  {
    var e := Enumerated(vs);
    forall i, j | 0 <= i < j < |e| ensures e[i].0 != e[j].0 {
      if e[i].0 == e[j].0 {
        IntStrInjective(i, j);
      }
    }
  }

  /**
   * `format_iterable` yields one child per element, keyed `"0"`, `"1"`, ...
   * in iteration order, bracketed; a value that cannot be iterated raises
   * TypeError.
   */
  lemma FormatIterableEnumerates(v: Value)
    ensures Iteration(v).None? ==> ApplyRule(FormatIterable, v) == Raises(TypeError)
    ensures Iteration(v).Some? ==>
      var elems := Iteration(v).value;
      && ApplyRule(FormatIterable, v).Children?
      && ApplyRule(FormatIterable, v).asGetitem
      && |ApplyRule(FormatIterable, v).kids| == |elems|
      && forall i :: 0 <= i < |elems| ==> ApplyRule(FormatIterable, v).kids[i] == (IntStr(i), elems[i])
  {
    if Iteration(v).Some? {
      EnumeratedDistinct(Iteration(v).value);
      FromPairsDistinct(Enumerated(Iteration(v).value));
    }
  }

  /**
   * `format_mapping` on a mapping yields, bracketed, one child per distinct
   * `str` of its keys, at the place where that text first occurs, holding
   * the value of the last key with that text; anything else raises
   * AttributeError.
   */
  lemma FormatMappingKeys(v: Value)
    ensures !v.Dict? ==> ApplyRule(FormatMapping, v) == Raises(AttributeError)
    ensures v.Dict? ==>
      var out := ApplyRule(FormatMapping, v);
      && out.Children? && out.asGetitem
      && Keys(out.kids) == Dedup(Keys(StrKeyed(v.entries)))
      && (forall k :: k in Keys(out.kids) <==> k in Keys(StrKeyed(v.entries)))
      && forall k :: k in Keys(StrKeyed(v.entries)) ==> Get(out.kids, k) == Some(LastValue(StrKeyed(v.entries), k))
  {
    if v.Dict? {
      var ps := StrKeyed(v.entries);
      var empty: seq<(string, Value)> := [];
      UpdateKeys(empty, ps);
      assert Keys(empty) + Keys(ps) == Keys(ps);
      DedupMembers(Keys(ps));
      forall k | k in Keys(ps) ensures Get(FromPairs(ps), k) == Some(LastValue(ps, k)) {
        UpdateGet([], ps, k);
      }
    }
  }

  /** Two keys with the same `str` collapse: the later value stays at the earlier key's place. */
  lemma FormatMappingCollapses()
    ensures ApplyRule(FormatMapping, Dict([(Atom("int", "1"), Str("a")), (Str("2"), Str("b")), (Str("1"), Str("c"))]))
         == Children([("1", Str("c")), ("2", Str("b"))], true)
  {
    var ps := StrKeyed([(Atom("int", "1"), Str("a")), (Str("2"), Str("b")), (Str("1"), Str("c"))]);
    var empty: seq<(string, Value)> := [];
    assert ps == [("1", Str("a")), ("2", Str("b")), ("1", Str("c"))];
    assert ps[..2][..1] == [("1", Str("a"))];
    assert Update(empty, ps[..2][..1]) == [("1", Str("a"))] by {
      assert ps[..2][..1][..0] == [];
    }
    assert Assign([("1", Str("a"))], "2", Str("b")) == [("1", Str("a")), ("2", Str("b"))] by {
      assert [("1", Str("a"))][1..] == [];
    }
    assert Update(empty, ps[..2]) == Assign(Update(empty, ps[..2][..1]), "2", Str("b"));
    assert Update(empty, ps) == Assign(Update(empty, ps[..2]), "1", Str("c"));
  }

  /**
   * `format_namespace` yields the attributes of the instance's `__dict__`
   * in order, dotted; a dataclass instance has one too; any other value
   * raises AttributeError.
   */
  lemma FormatNamespaceAttributes(v: Value)
    requires WellFormed(v)
    ensures ApplyRule(FormatNamespace, v) ==
      if v.Namespace? then Children(v.attrs, false)
      else if v.Dataclass? then Children(v.fields, false)
      else Raises(AttributeError)
  {
    if v.Namespace? {
      FromPairsDistinct(v.attrs);
    } else if v.Dataclass? {
      FromPairsDistinct(v.fields);
    }
  }

  /** `format_dataclass` yields the declared fields in order, dotted; a non-dataclass raises TypeError. */
  lemma FormatDataclassFields(v: Value)
    requires WellFormed(v)
    ensures ApplyRule(FormatDataclass, v) ==
      if v.Dataclass? then Children(v.fields, false) else Raises(TypeError)
  {
    if v.Dataclass? {
      FromPairsDistinct(v.fields);
    }
  }

  /** `format_namedtuple` yields `_asdict()` in field order, dotted; anything else raises AttributeError. */
  lemma FormatNamedTupleFields(v: Value)
    requires WellFormed(v)
    ensures ApplyRule(FormatNamedTuple, v) ==
      if v.NamedTuple? then Children(v.fields, false) else Raises(AttributeError)
  {
    if v.NamedTuple? {
      FromPairsDistinct(v.fields);
    }
  }

  /**
   * The shipped rules only ever hand back components of their input, so
   * expanding with them goes strictly down the value.
   */
  lemma ShippedRulesYieldComponents(r: Rule, v: Value)
    requires !r.Custom? && !v.Str?
    requires ApplyRule(r, v).Children?
    ensures forall i :: 0 <= i < |ApplyRule(r, v).kids| ==> Component(ApplyRule(r, v).kids[i].1, v)
  {
    var kids := ApplyRule(r, v).kids;
    var source: seq<(string, Value)> :=
      if r.FormatIterable? then Enumerated(Iteration(v).value)
      else if r.FormatMapping? then StrKeyed(v.entries)
      else if r.FormatNamespace? && v.Namespace? then v.attrs
      else v.fields;
    assert kids == FromPairs(source);
    UpdateValuesFrom([], source);
    forall i | 0 <= i < |kids| ensures Component(kids[i].1, v) {
      assert ValuesOf(kids)[i] == kids[i].1;
      assert kids[i].1 in ValuesOf(source);
      var j :| 0 <= j < |source| && ValuesOf(source)[j] == kids[i].1;
      match v {
        case Dict(entries) =>
          if r.FormatIterable? {
            assert Keys(entries)[j] == entries[j].0;
          } else {
            assert source[j].1 == entries[j].1;
          }
        case NamedTuple(_, fs) =>
          if r.FormatIterable? {
            assert ValuesOf(fs)[j] == fs[j].1;
          }
        case _ =>
      }
    }
  }
}
