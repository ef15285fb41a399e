/**
 * The Python values a log call can carry, as a closed datatype, with the
 * `str()` text the formatter falls back to and the runtime facts (class
 * name, nesting depth) the dispatch and the termination argument need.
 */
module Values {
  import opened OrderedMap

  datatype Value =
    | Str(s: string)
      /** Any object without structure the rules look into: int, float, complex, bool, None, a class object, ... */
    | Atom(typeName: string, text: string)
    | List(items: seq<Value>)
    | Tuple(items: seq<Value>)
      /** A mapping, in its iteration order. */
    | Dict(entries: seq<(Value, Value)>)
      /** An instance of a dataclass: its fields in declaration order. */
    | Dataclass(cls: string, fields: seq<(string, Value)>)
      /** An instance of a `typing.NamedTuple` or `collections.namedtuple` class. */
    | NamedTuple(cls: string, fields: seq<(string, Value)>)
      /** A plain attribute bag (`types.SimpleNamespace`, `argparse.Namespace`, ...): its `__dict__`. */
    | Namespace(cls: string, attrs: seq<(string, Value)>)

  const NoneValue := Atom("NoneType", "None")

  /** `type(v).__name__` */
  function TypeName(v: Value): string
  {
    match v
    case Str(_) => "str"
    case Atom(t, _) => t
    case List(_) => "list"
    case Tuple(_) => "tuple"
    case Dict(_) => "dict"
    case Dataclass(c, _) => c
    case NamedTuple(c, _) => c
    case Namespace(c, _) => c
  }

  /** What Python guarantees of every value: the fields of a record have distinct names. */
  predicate WellFormed(v: Value)
  {
    match v
    case Str(_) => true
    case Atom(_, _) => true
    case List(items) => forall i :: 0 <= i < |items| ==> WellFormed(items[i])
    case Tuple(items) => forall i :: 0 <= i < |items| ==> WellFormed(items[i])
    case Dict(entries) => forall i :: 0 <= i < |entries| ==> WellFormed(entries[i].0) && WellFormed(entries[i].1)
    case Dataclass(_, fs) => Unique(fs) && forall i :: 0 <= i < |fs| ==> WellFormed(fs[i].1)
    case NamedTuple(_, fs) => Unique(fs) && forall i :: 0 <= i < |fs| ==> WellFormed(fs[i].1)
    case Namespace(_, fs) => Unique(fs) && forall i :: 0 <= i < |fs| ==> WellFormed(fs[i].1)
  }

  // ---------------------------------------------------------------------
  // str() and repr()

  function Join(parts: seq<string>, sep: string): string
  {
    if |parts| == 0 then ""
    else if |parts| == 1 then parts[0]
    else parts[0] + sep + Join(parts[1..], sep)
  }

  /** `repr(s)` of a string: single quotes unless only double quotes avoid a clash. */
  function QuoteRepr(s: string): string
  {
    if '\'' in s && '"' !in s then "\"" + s + "\"" else "'" + s + "'"
  }

  function Repr(v: Value): string
    decreases v, 1
  {
    if v.Str? then QuoteRepr(v.s) else Show(v)
  }

  /** `str(v)` */
  function Show(v: Value): string
    decreases v, 0
  {
    match v
    case Str(s) => s
    case Atom(_, text) => text
    case List(items) =>
      "[" + Join(seq(|items|, i requires 0 <= i < |items| => Repr(items[i])), ", ") + "]"
    case Tuple(items) =>
      "(" + Join(seq(|items|, i requires 0 <= i < |items| => Repr(items[i])), ", ")
      + (if |items| == 1 then ",)" else ")")
    case Dict(entries) =>
      "{" + Join(seq(|entries|, i requires 0 <= i < |entries| =>
                   Repr(entries[i].0) + ": " + Repr(entries[i].1)), ", ") + "}"
    case Dataclass(c, fs) =>
      c + "(" + Join(seq(|fs|, i requires 0 <= i < |fs| => fs[i].0 + "=" + Repr(fs[i].1)), ", ") + ")"
    case NamedTuple(c, fs) =>
      c + "(" + Join(seq(|fs|, i requires 0 <= i < |fs| => fs[i].0 + "=" + Repr(fs[i].1)), ", ") + ")"
    case Namespace(c, fs) =>
      c + "(" + Join(seq(|fs|, i requires 0 <= i < |fs| => fs[i].0 + "=" + Repr(fs[i].1)), ", ") + ")"
  }

  function Digit(d: nat): char
    requires d < 10
  {
    (48 + d) as char
  }

  /** `str(n)` of a non-negative int, in decimal. */
  function IntStr(n: nat): string
  {
    if n < 10 then [Digit(n)] else IntStr(n / 10) + [Digit(n % 10)]
  }

  lemma {:induction false} IntStrLength(n: nat)
    ensures |IntStr(n)| >= 1
    ensures |IntStr(n)| == 1 <==> n < 10
  {
    if n >= 10 {
      IntStrLength(n / 10);
    }
  }

  /** Distinct numbers have distinct decimal texts. */
  lemma {:induction false} IntStrInjective(a: nat, b: nat)
    requires IntStr(a) == IntStr(b)
    ensures a == b
  {
    IntStrLength(a);
    IntStrLength(b);
    var s := IntStr(a);
    if a < 10 && b < 10 {
      assert Digit(a) == s[0] == Digit(b);
      assert Digit(a) as int == 48 + a;
    } else if a >= 10 && b >= 10 {
      var n := |s|;
      assert s[..n - 1] == IntStr(a / 10) && s[..n - 1] == IntStr(b / 10);
      assert Digit(a % 10) == s[n - 1] == Digit(b % 10);
      assert Digit(a % 10) as int == 48 + a % 10;
      assert Digit(b % 10) as int == 48 + b % 10;
      IntStrInjective(a / 10, b / 10);
    }
  }

  // ---------------------------------------------------------------------
  // Nesting depth

  function MaxOf(s: seq<nat>): (r: nat)
    ensures forall i :: 0 <= i < |s| ==> s[i] <= r
  {
    if s == [] then 0
    else
      var rest := MaxOf(s[1..]);
      assert forall i :: 1 <= i < |s| ==> s[i] == s[1..][i - 1];
      if s[0] >= rest then s[0] else rest
  }

  function Max(a: nat, b: nat): nat
  {
    if a >= b then a else b
  }

  /** How many containers are nested in `v`; strings and atoms have none. */
  function Depth(v: Value): nat
  {
    match v
    case Str(_) => 0
    case Atom(_, _) => 0
    case List(items) => 1 + MaxOf(seq(|items|, i requires 0 <= i < |items| => Depth(items[i])))
    case Tuple(items) => 1 + MaxOf(seq(|items|, i requires 0 <= i < |items| => Depth(items[i])))
    case Dict(entries) =>
      1 + MaxOf(seq(|entries|, i requires 0 <= i < |entries| => Max(Depth(entries[i].0), Depth(entries[i].1))))
    case Dataclass(_, fs) => 1 + MaxOf(seq(|fs|, i requires 0 <= i < |fs| => Depth(fs[i].1)))
    case NamedTuple(_, fs) => 1 + MaxOf(seq(|fs|, i requires 0 <= i < |fs| => Depth(fs[i].1)))
    case Namespace(_, fs) => 1 + MaxOf(seq(|fs|, i requires 0 <= i < |fs| => Depth(fs[i].1)))
  }

  /** `c` is one of the values held directly by `v`: an item, a mapping key or value, a field value. */
  predicate Component(c: Value, v: Value)
  {
    match v
    case Str(_) => false
    case Atom(_, _) => false
    case List(items) => c in items
    case Tuple(items) => c in items
    case Dict(entries) => exists i :: 0 <= i < |entries| && (entries[i].0 == c || entries[i].1 == c)
    case Dataclass(_, fs) => exists i :: 0 <= i < |fs| && fs[i].1 == c
    case NamedTuple(_, fs) => exists i :: 0 <= i < |fs| && fs[i].1 == c
    case Namespace(_, fs) => exists i :: 0 <= i < |fs| && fs[i].1 == c
  }

  /** The components of a value are strictly less deeply nested than the value. */
  lemma ComponentDepth(c: Value, v: Value)
    requires Component(c, v)
    ensures Depth(c) < Depth(v)
  {
    match v
    case List(items) =>
      var i :| 0 <= i < |items| && items[i] == c;
      var ds := seq(|items|, i requires 0 <= i < |items| => Depth(items[i]));
      assert ds[i] == Depth(c);
    case Tuple(items) =>
      var i :| 0 <= i < |items| && items[i] == c;
      var ds := seq(|items|, i requires 0 <= i < |items| => Depth(items[i]));
      assert ds[i] == Depth(c);
    case Dict(entries) =>
      var i :| 0 <= i < |entries| && (entries[i].0 == c || entries[i].1 == c);
      var ds := seq(|entries|, i requires 0 <= i < |entries| => Max(Depth(entries[i].0), Depth(entries[i].1)));
      assert ds[i] >= Depth(c);
    case Dataclass(_, fs) =>
      var i :| 0 <= i < |fs| && fs[i].1 == c;
      var ds := seq(|fs|, i requires 0 <= i < |fs| => Depth(fs[i].1));
      assert ds[i] == Depth(c);
    case NamedTuple(_, fs) =>
      var i :| 0 <= i < |fs| && fs[i].1 == c;
      var ds := seq(|fs|, i requires 0 <= i < |fs| => Depth(fs[i].1));
      assert ds[i] == Depth(c);
    case Namespace(_, fs) =>
      var i :| 0 <= i < |fs| && fs[i].1 == c;
      var ds := seq(|fs|, i requires 0 <= i < |fs| => Depth(fs[i].1));
      assert ds[i] == Depth(c);
  }
}
