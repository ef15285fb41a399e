/**
 * `LogfmtFormatter`: the assembly of the ordered field dictionary of one
 * record (`format`), its rendering, and the formatter object itself with
 * its rule registry.
 *
 * The functions state what one call computes; the class runs the same
 * steps the way the formatter does (a registry scan, a loop over the
 * children, deletion loops over the dictionary) and its methods are proved
 * to agree with the functions.
 */
module Formatter {
  import opened Runtime
  import opened OrderedMap
  import opened Values
  import opened ValueFormatters
  import opened Expansion
  import opened Rendering

  /**
   * A compiled `msg_regex`.  `search` gives, for a message it matches, the
   * `groupdict()` of the match: every named group with the text it
   * captured, or None for a group that took no part in the match.
   */
  datatype Pattern = Pattern(search: string -> Option<seq<(string, Option<string>)>>)

  /** The parts of a `logging.LogRecord` the formatter reads. */
  datatype LogRecord = LogRecord(
    name: string,
    levelno: int,
    funcName: Option<string>,
      /** `created`, converted to the formatter's time zone and written in ISO 8601 */
    time: string,
    msg: Value,
      /** `getMessage()` */
    message: string,
      /** `__dict__`, in insertion order */
    attrs: seq<(string, Value)>,
      /** `formatException(exc_info)`, when the record carries exception information */
    excText: Option<string>,
      /** `formatStack(stack_info)`, when the record carries stack information */
    stackText: Option<string>)

  /** The field dictionary under construction; None is Python's None. */
  type Fields = seq<(string, Option<string>)>

  /** Record attributes that are never copied as extra fields. */
  const DefaultLogRecordAttributes: seq<string> := [
    "args", "asctime", "created", "exc_info", "exc_text", "filename", "funcName",
    "levelname", "levelno", "lineno", "message", "module", "msecs", "msg", "name",
    "pathname", "process", "processName", "relativeCreated", "stack_info", "thread",
    "threadName", "taskName", "data"
  ]

  /** A flattened value as fields. */
  function Lift(f: Flat): (d: Fields)
    ensures Keys(d) == Keys(f)
    ensures forall i :: 0 <= i < |f| ==> d[i] == (f[i].0, Some(f[i].1))
  {
    var d := seq(|f|, i requires 0 <= i < |f| => (f[i].0, Some(f[i].1)));
    assert Keys(d) == Keys(f);
    d
  }

  /**
   * The extra attributes of a record, each as its `str()` (which leaves a
   * string as it is), in the order of `__dict__`.
   */
  function ExtraPairs(attrs: seq<(string, Value)>): Fields
  {
    if attrs == [] then []
    else
      (if attrs[0].0 in DefaultLogRecordAttributes then [] else [(attrs[0].0, Some(Show(attrs[0].1)))])
      + ExtraPairs(attrs[1..])
  }

  function Extras(rec: LogRecord): Fields
  {
    FromPairs(ExtraPairs(rec.attrs))
  }

  function Seed(rec: LogRecord): Fields
  {
    [("time", Some(rec.time)), ("function", rec.funcName)]
  }

  function Stamp(rec: LogRecord, level: string): Fields
  {
    [("name", Some(rec.name)), ("level", Some(level))]
  }

  /** The fields up to and including `name` and `level`. */
  function Base(colorize: bool, rec: LogRecord): Result<Fields>
  {
    match LevelWord(colorize, rec.levelno)
    case Err(e) => Err(e)
    case Ok(level) => Ok(Update(Update(Seed(rec), Extras(rec)), Stamp(rec, level)))
  }

  /** The message step: an expanded non-string message, the regex groups, or the message text. */
  function WithMessage(regex: Option<Pattern>, reg: Registry, rec: LogRecord, d: Fields, fuel: nat): Result<Fields>
  {
    if !rec.msg.Str? then
      match Expand(reg, rec.msg, "message", fuel)
      case Err(e) => Err(e)
      case Ok(f) => Ok(Update(d, Lift(f)))
    else if regex.Some? then
      match regex.value.search(rec.message)
      case None => Ok(d)
      case Some(groups) =>
        if groups == [] then Err(ValueError)
        else if "message" !in Keys(d) then Err(KeyError)
        else Ok(Update(Without(d, "message"), groups))
    else Ok(Assign(d, "message", Some(rec.message)))
  }

  /** The data step: a `data` attribute that is not None, expanded under `data`. */
  function WithData(reg: Registry, rec: LogRecord, d: Fields, fuel: nat): Result<Fields>
  {
    match Get(rec.attrs, "data")
    case None => Ok(d)
    case Some(v) =>
      if v == NoneValue then Ok(d)
      else
        match Expand(reg, v, "data", fuel)
        case Err(e) => Err(e)
        case Ok(f) => Ok(Update(d, Lift(f)))
  }

  /** The field dictionary before exclusion. */
  function Assemble(colorize: bool, regex: Option<Pattern>, reg: Registry, rec: LogRecord, fuel: nat): Result<Fields>
  {
    match Base(colorize, rec)
    case Err(e) => Err(e)
    case Ok(b) =>
      match WithMessage(regex, reg, rec, b, fuel)
      case Err(e) => Err(e)
      case Ok(m) => WithData(reg, rec, m, fuel)
  }

  /** The keys stored with value None. */
  function NoneKeys(d: Fields): set<string>
  {
    set i | 0 <= i < |d| && d[i].1.None? :: d[i].0
  }

  /** What a lookup in the fields writes out: nothing for a missing key or a None value. */
  function Written(o: Option<Option<string>>): Option<string>
  {
    if o.Some? && o.value.Some? then Some(o.value.value) else None
  }

  /** The fields that hold a value, in order. */
  function Present(d: Fields): seq<(string, string)>
  {
    if d == [] then []
    else (if d[0].1.Some? then [(d[0].0, d[0].1.value)] else []) + Present(d[1..])
  }

  /** The fields that are written out, in order. */
  function LineFields(colorize: bool, excludeKeys: set<string>, regex: Option<Pattern>, reg: Registry,
                      rec: LogRecord, fuel: nat): Result<seq<(string, string)>>
  {
    match Assemble(colorize, regex, reg, rec, fuel)
    case Err(e) => Err(e)
    case Ok(d) => Ok(Present(Exclude(d, excludeKeys)))
  }

  /** `format(record)` */
  function Line(colorize: bool, excludeKeys: set<string>, regex: Option<Pattern>, highlight: set<string>,
                reg: Registry, rec: LogRecord, fuel: nat): Result<string>
  {
    match LineFields(colorize, excludeKeys, regex, reg, rec, fuel)
    case Err(e) => Err(e)
    case Ok(fs) =>
      var line := Render(colorize, highlight, fs);
      var withException := if rec.excText.Some? then line + "\n" + rec.excText.value else line;
      Ok(if rec.stackText.Some? then withException + "\n" + rec.stackText.value else withException)
  }

  // ---------------------------------------------------------------------
  // The formatter object

  class LogfmtFormatter {
    var colorize: bool
    var excludeKeys: set<string>
    var msgRegex: Option<Pattern>
    var highlightKeys: set<string>
    var customFormatters: Registry

    /** The registry is a dictionary: no key is registered twice. */
    predicate Valid()
      reads this
    {
      DistinctKeys(customFormatters)
    }

    constructor(colorize: bool := true, excludeKeys: set<string> := {}, msgRegex: Option<Pattern> := None,
                highlightKeys: set<string> := {"message"}, includeDefaultFormatters: bool := true)
      ensures Valid()
      ensures this.colorize == colorize && this.excludeKeys == excludeKeys && this.msgRegex == msgRegex
      ensures this.highlightKeys == highlightKeys
      ensures customFormatters == if includeDefaultFormatters then DefaultFormatters else []
    {
      this.colorize := colorize;
      this.excludeKeys := excludeKeys;
      this.msgRegex := msgRegex;
      this.highlightKeys := highlightKeys;
      customFormatters := [];
      if includeDefaultFormatters {
        ShippedRegistryDistinct();
        customFormatters := DefaultFormatters;
      }
    }

    /** `add_custom_formatter(condition, formatter)` */
    method AddCustomFormatter(condition: Key, formatter: Rule)
      requires Valid()
      modifies this
      ensures Valid()
      ensures customFormatters == Register(old(customFormatters), condition, formatter)
      ensures colorize == old(colorize) && excludeKeys == old(excludeKeys) && msgRegex == old(msgRegex)
      ensures highlightKeys == old(highlightKeys)
    {
      RegisterPlacement(customFormatters, condition, formatter);
      customFormatters := Register(customFormatters, condition, formatter);
    }

    /** `custom_formatter(condition)(func)`: registers `func` and hands it back unchanged. */
    method CustomFormatter(condition: Key, func: Rule) returns (decorated: Rule)
      requires Valid()
      modifies this
      ensures Valid()
      ensures decorated == func
      ensures customFormatters == Register(old(customFormatters), condition, func)
      ensures colorize == old(colorize) && excludeKeys == old(excludeKeys) && msgRegex == old(msgRegex)
      ensures highlightKeys == old(highlightKeys)
    {
      AddCustomFormatter(condition, func);
      decorated := func;
    }

    /** `remove_custom_formatter(condition)`: KeyError, and nothing changes, when it is not registered. */
    method RemoveCustomFormatter(condition: Key) returns (error: Option<Error>)
      requires Valid()
      modifies this
      ensures Valid()
      ensures Unregister(old(customFormatters), condition).Ok? ==>
        error == None && customFormatters == Unregister(old(customFormatters), condition).value
      ensures Unregister(old(customFormatters), condition).Err? ==>
        error == Some(KeyError) && customFormatters == old(customFormatters)
      ensures colorize == old(colorize) && excludeKeys == old(excludeKeys) && msgRegex == old(msgRegex)
      ensures highlightKeys == old(highlightKeys)
    {
      UnregisterRemovesOnlyIt(customFormatters, condition);
      match Unregister(customFormatters, condition)
      case Ok(reg) =>
        customFormatters := reg;
        error := None;
      case Err(e) =>
        error := Some(e);
    }

    /** `_format_value(value, prefix)` */
    method FormatValue(value: Value, prefix: string, fuel: nat) returns (r: Result<Flat>)
      ensures r == Expand(customFormatters, value, prefix, fuel)
      decreases fuel, 1
    {
      if value.Str? {
        return Ok([(prefix, value.s)]);
      }
      if fuel == 0 {
        return Err(RecursionError);
      }
      var i := |customFormatters|;
      while i > 0
        invariant 0 <= i <= |customFormatters|
        invariant FindRule(customFormatters, value, |customFormatters|) == FindRule(customFormatters, value, i)
      {
        var isFormatterType: bool;
        match customFormatters[i - 1].0 {
          case ClassKey(c) =>
            isFormatterType := IsInstance(value, c);
          case FuncKey(_, test) =>
            isFormatterType := test(value);
          case TupleKey(_) =>
            return Err(TypeError);
        }
        if isFormatterType {
          r := ApplyFormatter(customFormatters[i - 1].1, value, prefix, fuel);
          return;
        }
        i := i - 1;
      }
      return Ok([(prefix, Show(value))]);
    }

    /** Runs `formatter` on `value` and merges, in order, the expansions of the children it gives back. */
    method ApplyFormatter(formatter: Rule, value: Value, prefix: string, fuel: nat) returns (r: Result<Flat>)
      requires fuel > 0
      ensures r == ApplyAndExpand(customFormatters, formatter, value, prefix, fuel)
      decreases fuel, 0
    {
      match ApplyRule(formatter, value) {
        case Raises(e) =>
          return Err(e);
        case Children(kids, asGetitem) =>
          var base: Flat := [];
          var j := 0;
          while j < |kids|
            invariant 0 <= j <= |kids|
            invariant ExpandChildren(customFormatters, kids, prefix, asGetitem, fuel - 1, [])
                      == ExpandChildren(customFormatters, kids[j..], prefix, asGetitem, fuel - 1, base)
          {
            assert kids[j..][0] == kids[j] && kids[j..][1..] == kids[j + 1..];
            var expanded := FormatValue(kids[j].1, ChildPath(prefix, kids[j].0, asGetitem), fuel - 1);
            if expanded.Err? {
              return Err(expanded.error);
            }
            base := Update(base, expanded.value);
            j := j + 1;
          }
          return Ok(base);
      }
    }

    /** The field dictionary `format` builds before the exclusion step. */
    method AssembleFields(record: LogRecord, fuel: nat) returns (r: Result<Fields>)
      ensures r == Assemble(colorize, msgRegex, customFormatters, record, fuel)
    {
      var data: Fields := [("time", Some(record.time)), ("function", record.funcName)];
      data := Update(data, FromPairs(ExtraPairs(record.attrs)));
      var level := LevelWord(colorize, record.levelno);
      if level.Err? {
        return Err(level.error);
      }
      data := Update(data, [("name", Some(record.name)), ("level", Some(level.value))]);
      ghost var base := data;
      assert Base(colorize, record) == Ok(base);
      if !record.msg.Str? {
        var expanded := FormatValue(record.msg, "message", fuel);
        if expanded.Err? {
          return Err(expanded.error);
        }
        data := Update(data, Lift(expanded.value));
      } else if msgRegex.Some? {
        var found := msgRegex.value.search(record.message);
        if found.Some? {
          var groups := found.value;
          if groups == [] {
            return Err(ValueError);
          }
          if "message" !in Keys(data) {
            return Err(KeyError);
          }
          data := Without(data, "message");
          data := Update(data, groups);
        }
      } else {
        data := Assign(data, "message", Some(record.message));
      }
      assert WithMessage(msgRegex, customFormatters, record, base, fuel) == Ok(data);
      var attr := Get(record.attrs, "data");
      if attr.Some? && attr.value != NoneValue {
        var expanded := FormatValue(attr.value, "data", fuel);
        if expanded.Err? {
          return Err(expanded.error);
        }
        data := Update(data, Lift(expanded.value));
      }
      return Ok(data);
    }

    /** Deletes, one by one, the keys of `data` that are also excluded keys; each is present when deleted. */
    method DeleteExcluded(data: Fields) returns (kept: Fields)
      ensures kept == Exclude(data, excludeKeys)
    {
      var common := set k | k in Keys(data) && k in excludeKeys;
      var remaining := common;
      kept := data;
      ExcludeNothing(data);
      assert common - remaining == {};
      while remaining != {}
        invariant remaining <= common
        invariant kept == Exclude(data, common - remaining)
        decreases |remaining|
      {
        var key :| key in remaining;
        ghost var done := common - remaining;
        DeleteStep(data, done, key);
        kept := Without(kept, key);
        remaining := remaining - {key};
        assert common - remaining == done + {key};
      }
      assert common - remaining == common;
      ExcludePresent(data, common, excludeKeys);
    }

    /** Deletes, going over a copy, every key whose value is None; each is present when deleted. */
    static method DeleteNone(data: Fields) returns (r: Fields)
      requires Unique(data)
      ensures r == Exclude(data, NoneKeys(data))
      ensures Present(r) == Present(data)
      ensures forall i :: 0 <= i < |r| ==> r[i].1.Some?
    {
      var snapshot := data;
      r := data;
      var k := 0;
      ExcludeNothing(snapshot);
      assert NoneKeys(snapshot[..0]) == {};
      while k < |snapshot|
        invariant 0 <= k <= |snapshot|
        invariant r == Exclude(snapshot, NoneKeys(snapshot[..k]))
      {
        var key, value := snapshot[k].0, snapshot[k].1;
        ghost var done := NoneKeys(snapshot[..k]);
        NoneKeysExtend(snapshot, k);
        if value.None? {
          NoneKeysUnique(snapshot, k);
          assert key == Keys(snapshot)[k];
          DeleteStep(snapshot, done, key);
          r := Without(r, key);
          assert NoneKeys(snapshot[..k + 1]) == done + {key};
        } else {
          assert NoneKeys(snapshot[..k + 1]) == done;
        }
        k := k + 1;
      }
      assert snapshot[..|snapshot|] == snapshot;
      PresentWithoutNone(snapshot);
      NoneFree(snapshot);
    }

    /** `format(record)`; `fuel` is how many nested expansions the recursion limit allows. */
    method Format(record: LogRecord, fuel: nat) returns (r: Result<string>)
      ensures r == Line(colorize, excludeKeys, msgRegex, highlightKeys, customFormatters, record, fuel)
    {
      var assembled := AssembleFields(record, fuel);
      if assembled.Err? {
        return Err(assembled.error);
      }
      var data := assembled.value;
      AssembleUnique(colorize, msgRegex, customFormatters, record, fuel);
      if excludeKeys != {} {
        data := DeleteExcluded(data);
      } else {
        ExcludeNothing(data);
      }
      ExcludeUnique(assembled.value, excludeKeys);
      data := DeleteNone(data);
      var line := Render(colorize, highlightKeys, Present(data));
      if record.excText.Some? {
        line := line + "\n" + record.excText.value;
      }
      if record.stackText.Some? {
        line := line + "\n" + record.stackText.value;
      }
      return Ok(line);
    }
  }

  /**
   * `LogfmtFormatter()` with no arguments: colours on, nothing excluded,
   * no message pattern, `message` highlighted, the shipped rules
   * registered.
   */
  method DefaultFormatter() returns (f: LogfmtFormatter)
    ensures fresh(f) && f.Valid()
    ensures f.colorize && f.excludeKeys == {} && f.msgRegex == None && f.highlightKeys == {"message"}
    ensures f.customFormatters == DefaultFormatters
  {
    f := new LogfmtFormatter();
  }

  // ---------------------------------------------------------------------
  // Removing the excluded and the None fields

  /** A present key not yet deleted can be deleted, and deleting it extends the exclusion. */
  lemma DeleteStep(d: Fields, done: set<string>, k: string)
    requires k in Keys(d) && k !in done
    ensures k in Keys(Exclude(d, done))
    ensures Without(Exclude(d, done), k) == Exclude(d, done + {k})
  {
    ExcludeKeys(d, done);
    WithoutAfterExclude(d, done, k);
  }

  lemma NoneKeysExtend(d: Fields, k: nat)
    requires k < |d|
    ensures NoneKeys(d[..k + 1]) == NoneKeys(d[..k]) + (if d[k].1.None? then {d[k].0} else {})
  {
    var a, b := d[..k + 1], d[..k];
    assert forall i :: 0 <= i < k ==> a[i] == b[i];
    assert a[k] == d[k];
  }

  /** In a well-formed dictionary, a key is not among the None keys of the pairs before it. */
  lemma NoneKeysUnique(d: Fields, k: nat)
    requires Unique(d) && k < |d|
    ensures d[k].0 !in NoneKeys(d[..k])
  {
  }

  /** Fields that all hold a value are written out as they are. */
  lemma {:induction false} PresentLift(f: Flat)
    ensures Present(Lift(f)) == f
  {
    if f != [] {
      assert Lift(f)[1..] == Lift(f[1..]);
      PresentLift(f[1..]);
    }
  }

  /** Dropping keys whose value is None leaves the present fields as they were. */
  lemma {:induction false} PresentExclude(d: Fields, s: set<string>)
    requires forall i :: 0 <= i < |d| && d[i].0 in s ==> d[i].1.None?
    ensures Present(Exclude(d, s)) == Present(d)
  {
    if d != [] {
      assert forall i :: 0 <= i < |d[1..]| ==> d[1..][i] == d[i + 1];
      PresentExclude(d[1..], s);
    }
  }

  /** Deleting every None-valued key of a well-formed dictionary leaves its present fields. */
  lemma PresentWithoutNone(d: Fields)
    requires Unique(d)
    ensures Present(Exclude(d, NoneKeys(d))) == Present(d)
  {
    forall i | 0 <= i < |d| && d[i].0 in NoneKeys(d) ensures d[i].1.None? {
      var j :| 0 <= j < |d| && d[j].1.None? && d[j].0 == d[i].0;
      assert i == j;
    }
    PresentExclude(d, NoneKeys(d));
  }

  /** After deleting the None-valued keys, every remaining field holds a value. */
  lemma {:induction false} NoneFree(d: Fields)
    ensures forall i :: 0 <= i < |Exclude(d, NoneKeys(d))| ==> Exclude(d, NoneKeys(d))[i].1.Some?
  {
    var e := Exclude(d, NoneKeys(d));
    forall i | 0 <= i < |e| ensures e[i].1.Some? {
      ExcludeEntries(d, NoneKeys(d), e[i]);
    }
  }

  lemma {:induction false} ExcludeEntries(m: Fields, s: set<string>, x: (string, Option<string>))
    ensures x in Exclude(m, s) <==> x in m && x.0 !in s
  {
    if m != [] {
      ExcludeEntries(m[1..], s, x);
      assert x in m <==> x == m[0] || x in m[1..];
    }
  }

  /** In a well-formed dictionary, a field is written out exactly when it holds a value. */
  lemma {:induction false} GetPresent(d: Fields, k: string)
    requires Unique(d)
    ensures Get(Present(d), k) == Written(Get(d, k))
  {
    if d != [] {
      UniqueTail(d);
      GetPresent(d[1..], k);
      var rest := Present(d[1..]);
      if d[0].1.Some? {
        var p := [(d[0].0, d[0].1.value)] + rest;
        assert Present(d) == p && p[0] == (d[0].0, d[0].1.value) && p[1..] == rest;
      } else {
        assert Present(d) == rest;
      }
    }
  }

  lemma UniqueTail<K, V>(m: seq<(K, V)>)
    requires Unique(m) && m != []
    ensures Unique(m[1..])
  {
    forall i, j | 0 <= i < j < |m[1..]| ensures m[1..][i].0 != m[1..][j].0 {
      assert m[1..][i] == m[i + 1] && m[1..][j] == m[j + 1];
    }
  }

  // ---------------------------------------------------------------------
  // Well-formedness of the assembled fields

  lemma WithoutUnique(m: Fields, k: string)
    requires Unique(m)
    ensures Unique(Without(m, k))
  {
    ExcludeNothing(m);
    WithoutAfterExclude(m, {}, k);
    var none: set<string> := {};
    assert none + {k} == {k};
    ExcludeUnique(m, {k});
  }

  lemma LiftUnique(f: Flat)
    requires Unique(f)
    ensures Unique(Lift(f))
  {
    var d := Lift(f);
    forall i, j | 0 <= i < j < |d| ensures d[i].0 != d[j].0 {
      assert d[i].0 == f[i].0 && d[j].0 == f[j].0;
    }
  }

  /** The assembled fields hold every key once. */
  lemma AssembleUnique(colorize: bool, regex: Option<Pattern>, reg: Registry, rec: LogRecord, fuel: nat)
    ensures Assemble(colorize, regex, reg, rec, fuel).Ok? ==> Unique(Assemble(colorize, regex, reg, rec, fuel).value)
  {
    if Base(colorize, rec).Ok? {
      var level := LevelWord(colorize, rec.levelno).value;
      var s := Update(Seed(rec), Extras(rec));
      UpdateUnique(Seed(rec), Extras(rec));
      UpdateUnique(s, [("name", Some(rec.name)), ("level", Some(level))]);
      var b := Base(colorize, rec).value;
      if WithMessage(regex, reg, rec, b, fuel).Ok? {
        if !rec.msg.Str? {
          UpdateUnique(b, Lift(Expand(reg, rec.msg, "message", fuel).value));
        } else if regex.Some? {
          if regex.value.search(rec.message).Some? {
            WithoutUnique(b, "message");
            UpdateUnique(Without(b, "message"), regex.value.search(rec.message).value);
          }
        } else {
          AssignUnique(b, "message", Some(rec.message));
        }
        var m := WithMessage(regex, reg, rec, b, fuel).value;
        match Get(rec.attrs, "data")
        case Some(v) =>
          if v != NoneValue && Expand(reg, v, "data", fuel).Ok? {
            UpdateUnique(m, Lift(Expand(reg, v, "data", fuel).value));
          }
        case None =>
      }
    }
  }

  // ---------------------------------------------------------------------
  // Field precedence

  lemma {:induction false} ExtraPairsKeys(attrs: seq<(string, Value)>)
    ensures forall k :: k in Keys(ExtraPairs(attrs)) ==> k !in DefaultLogRecordAttributes
  {
    if attrs != [] {
      ExtraPairsKeys(attrs[1..]);
      var head: Fields := if attrs[0].0 in DefaultLogRecordAttributes then [] else [(attrs[0].0, Some(Show(attrs[0].1)))];
      assert Keys(ExtraPairs(attrs)) == Keys(head) + Keys(ExtraPairs(attrs[1..]));
    }
  }

  /** The keys of the extra attributes are none of the record's standard attributes. */
  lemma ExtrasKeys(rec: LogRecord)
    ensures Unique(Extras(rec))
    ensures forall k :: k in Keys(Extras(rec)) ==> k !in DefaultLogRecordAttributes
  {
    UpdateUnique([], ExtraPairs(rec.attrs));
    ExtraPairsKeys(rec.attrs);
    UpdateKeysFrom([], ExtraPairs(rec.attrs));
  }

  /** `time` and `function` are the first two fields before the message step. */
  lemma BaseOrder(colorize: bool, rec: LogRecord)
    requires Base(colorize, rec).Ok?
    ensures var b := Base(colorize, rec).value;
      |b| >= 2 && b[0].0 == "time" && b[1].0 == "function"
  {
    var s := Update(Seed(rec), Extras(rec));
    UpdateKeepsPositions(Seed(rec), Extras(rec));
    UpdateKeepsPositions(s, Stamp(rec, LevelWord(colorize, rec.levelno).value));
  }

  /** Before the message step `name` and `level` hold the record's name and its level word. */
  lemma BaseStamp(colorize: bool, rec: LogRecord)
    requires Base(colorize, rec).Ok?
    ensures var b := Base(colorize, rec).value;
      && Get(b, "name") == Some(Some(rec.name))
      && Get(b, "level") == Some(Some(LevelWord(colorize, rec.levelno).value))
  {
    var level := LevelWord(colorize, rec.levelno).value;
    var nl := Stamp(rec, level);
    var s := Update(Seed(rec), Extras(rec));
    assert Keys(nl) == ["name", "level"];
    assert LastValue(nl, "name") == Some(rec.name);
    assert LastValue(nl, "level") == Some(level);
    UpdateGet(s, nl, "name");
    UpdateGet(s, nl, "level");
  }

  /** There is no `message` field before the message step: it is a standard attribute. */
  lemma BaseWithoutMessage(colorize: bool, rec: LogRecord)
    requires Base(colorize, rec).Ok?
    ensures "message" !in Keys(Base(colorize, rec).value)
  {
    var s := Update(Seed(rec), Extras(rec));
    ExtrasKeys(rec);
    assert "message" in DefaultLogRecordAttributes;
    UpdateKeysFrom(Seed(rec), Extras(rec));
    UpdateKeysFrom(s, Stamp(rec, LevelWord(colorize, rec.levelno).value));
    assert Keys(Stamp(rec, LevelWord(colorize, rec.levelno).value)) == ["name", "level"];
    assert Keys(Seed(rec)) == ["time", "function"];
  }

  /** Any other key holds its extra attribute when there is one, else its seeded value. */
  lemma BaseOthers(colorize: bool, rec: LogRecord, k: string)
    requires Base(colorize, rec).Ok? && k != "name" && k != "level"
    ensures Get(Base(colorize, rec).value, k) ==
      if k in Keys(Extras(rec)) then Get(Extras(rec), k) else Get(Seed(rec), k)
  {
    var nl := Stamp(rec, LevelWord(colorize, rec.levelno).value);
    var s := Update(Seed(rec), Extras(rec));
    assert Keys(nl) == ["name", "level"];
    UpdateGet(s, nl, k);
    UpdateGet(Seed(rec), Extras(rec), k);
    if k in Keys(Extras(rec)) {
      ExtrasKeys(rec);
      GetIsLastValue(Extras(rec), k);
    }
  }

  /**
   * Up to the message step: `time` and `function` come first; `name` and
   * `level` hold the record's name and the level word; every other key
   * holds its extra attribute when there is one, else its seeded value;
   * and there is no `message` key.
   */
  lemma BaseFields(colorize: bool, rec: LogRecord)
    requires Base(colorize, rec).Ok?
    ensures var b := Base(colorize, rec).value;
      && |b| >= 2 && b[0].0 == "time" && b[1].0 == "function"
      && Get(b, "name") == Some(Some(rec.name))
      && Get(b, "level") == Some(Some(LevelWord(colorize, rec.levelno).value))
      && "message" !in Keys(b)
      && forall k :: k != "name" && k != "level" ==>
           Get(b, k) == if k in Keys(Extras(rec)) then Get(Extras(rec), k) else Get(Seed(rec), k)
  {
    BaseOrder(colorize, rec);
    BaseStamp(colorize, rec);
    BaseWithoutMessage(colorize, rec);
    forall k | k != "name" && k != "level"
      ensures Get(Base(colorize, rec).value, k) ==
        if k in Keys(Extras(rec)) then Get(Extras(rec), k) else Get(Seed(rec), k)
    {
      BaseOthers(colorize, rec, k);
    }
  }

  /** Merging fields whose keys all start with `prefix` leaves every other key alone. */
  lemma MergeKeepsOthers(d: Fields, f: Flat, prefix: string, k: string)
    requires forall x :: x in Keys(f) ==> prefix <= x
    requires !(prefix <= k)
    ensures Get(Update(d, Lift(f)), k) == Get(d, k)
    ensures forall x :: x in Keys(Update(d, Lift(f))) <==> x in Keys(d) || x in Keys(f)
  {
    UpdateGet(d, Lift(f), k);
    UpdateKeysFrom(d, Lift(f));
  }

  /** A merged expansion can be looked up path by path. */
  lemma MergeFinds(d: Fields, f: Flat, i: nat)
    requires Unique(f) && i < |f|
    ensures Get(Update(d, Lift(f)), f[i].0) == Some(Some(f[i].1))
  {
    LiftUnique(f);
    UpdateGet(d, Lift(f), f[i].0);
    GetUnique(Lift(f), i);
  }

  /** The message step touches only `message` and the keys under it. */
  lemma MessageStepKeepsOthers(regex: Option<Pattern>, reg: Registry, rec: LogRecord, d: Fields, fuel: nat, k: string)
    requires WithMessage(regex, reg, rec, d, fuel).Ok? && "message" !in Keys(d)
    requires !("message" <= k)
    ensures var m := WithMessage(regex, reg, rec, d, fuel).value;
      && Get(m, k) == Get(d, k)
      && |m| >= |d|
      && forall i :: 0 <= i < |d| ==> m[i].0 == d[i].0
  {
    if !rec.msg.Str? {
      var f := Expand(reg, rec.msg, "message", fuel).value;
      ExpandKeysPrefixed(reg, rec.msg, "message", fuel);
      MergeKeepsOthers(d, f, "message", k);
      UpdateKeepsPositions(d, Lift(f));
    } else if regex.None? {
      assert k != "message";
      AssignGet(d, "message", Some(rec.message), k);
      AssignKeepsPositions(d, "message", Some(rec.message));
    }
  }

  /** The data step touches only the keys under `data`. */
  lemma DataStepKeepsOthers(reg: Registry, rec: LogRecord, d: Fields, fuel: nat, k: string)
    requires WithData(reg, rec, d, fuel).Ok? && !("data" <= k)
    ensures var m := WithData(reg, rec, d, fuel).value;
      && Get(m, k) == Get(d, k)
      && |m| >= |d|
      && forall i :: 0 <= i < |d| ==> m[i].0 == d[i].0
  {
    match Get(rec.attrs, "data")
    case Some(v) =>
      if v != NoneValue {
        var f := Expand(reg, v, "data", fuel).value;
        ExpandKeysPrefixed(reg, v, "data", fuel);
        MergeKeepsOthers(d, f, "data", k);
        UpdateKeepsPositions(d, Lift(f));
      }
    case None =>
  }

  /**
   * The message and data steps touch only `message` and the keys under
   * `message` and `data`: the others keep their place and value.
   */
  lemma LaterStepsKeepOthers(colorize: bool, regex: Option<Pattern>, reg: Registry, rec: LogRecord, fuel: nat, k: string)
    requires Assemble(colorize, regex, reg, rec, fuel).Ok?
    requires !("message" <= k) && !("data" <= k)
    ensures Base(colorize, rec).Ok?
    ensures var b, d := Base(colorize, rec).value, Assemble(colorize, regex, reg, rec, fuel).value;
      && Get(d, k) == Get(b, k)
      && |d| >= |b|
      && forall i :: 0 <= i < |b| ==> d[i].0 == b[i].0
  {
    var b := Base(colorize, rec).value;
    BaseWithoutMessage(colorize, rec);
    MessageStepKeepsOthers(regex, reg, rec, b, fuel, k);
    var m := WithMessage(regex, reg, rec, b, fuel).value;
    DataStepKeepsOthers(reg, rec, m, fuel, k);
  }

  /** The standard keys lie under neither `message` nor `data`. */
  lemma StandardKeysOutside()
    ensures !("message" <= "time") && !("data" <= "time")
    ensures !("message" <= "function") && !("data" <= "function")
    ensures !("message" <= "name") && !("data" <= "name")
    ensures !("message" <= "level") && !("data" <= "level")
  {
    assert "message"[0] != "function"[0] && "data"[0] != "function"[0];
    assert "data"[0] != "time"[0] && "data"[0] != "name"[0] && "data"[0] != "level"[0];
  }

  /** Before the message step, `time` and `function` hold the seeded values unless an extra attribute replaced them. */
  lemma BaseSeedValues(colorize: bool, rec: LogRecord)
    requires Base(colorize, rec).Ok?
    ensures var b := Base(colorize, rec).value;
      && ("time" !in Keys(Extras(rec)) ==> Get(b, "time") == Some(Some(rec.time)))
      && ("function" !in Keys(Extras(rec)) ==> Get(b, "function") == Some(rec.funcName))
  {
    BaseOthers(colorize, rec, "time");
    BaseOthers(colorize, rec, "function");
    assert Keys(Seed(rec)) == ["time", "function"];
  }

  /**
   * In the assembled fields `time` and `function` come first (an extra
   * attribute of the same name keeps that place), and `name` and `level`
   * always hold the record's name and its level word.
   */
  lemma FieldPrecedence(colorize: bool, regex: Option<Pattern>, reg: Registry, rec: LogRecord, fuel: nat)
    requires Assemble(colorize, regex, reg, rec, fuel).Ok?
    ensures LevelWord(colorize, rec.levelno).Ok?
    ensures var d := Assemble(colorize, regex, reg, rec, fuel).value;
      && |d| >= 2 && d[0].0 == "time" && d[1].0 == "function"
      && Get(d, "name") == Some(Some(rec.name))
      && Get(d, "level") == Some(Some(LevelWord(colorize, rec.levelno).value))
      && ("time" !in Keys(Extras(rec)) ==> Get(d, "time") == Some(Some(rec.time)))
      && ("function" !in Keys(Extras(rec)) ==> Get(d, "function") == Some(rec.funcName))
  {
    StandardKeysOutside();
    LaterStepsKeepOthers(colorize, regex, reg, rec, fuel, "name");
    LaterStepsKeepOthers(colorize, regex, reg, rec, fuel, "level");
    LaterStepsKeepOthers(colorize, regex, reg, rec, fuel, "time");
    LaterStepsKeepOthers(colorize, regex, reg, rec, fuel, "function");
    BaseOrder(colorize, rec);
    BaseStamp(colorize, rec);
    BaseSeedValues(colorize, rec);
  }

  /** A level number outside the five standard levels raises KeyError. */
  lemma UnknownLevelRaises(colorize: bool, excludeKeys: set<string>, regex: Option<Pattern>, highlight: set<string>,
                           reg: Registry, rec: LogRecord, fuel: nat)
    requires rec.levelno !in {DEBUG, INFO, WARNING, ERROR, CRITICAL}
    ensures Line(colorize, excludeKeys, regex, highlight, reg, rec, fuel) == Err(KeyError)
  {
    LevelTables(rec.levelno);
  }

  // ---------------------------------------------------------------------
  // Message and data

  /** Without a pattern, a string message is written as the `message` field. */
  lemma StringMessageWritten(colorize: bool, reg: Registry, rec: LogRecord, fuel: nat)
    requires rec.msg.Str? && Assemble(colorize, None, reg, rec, fuel).Ok?
    ensures Get(Assemble(colorize, None, reg, rec, fuel).value, "message") == Some(Some(rec.message))
  {
    var b := Base(colorize, rec).value;
    AssignGet(b, "message", Some(rec.message), "message");
    assert !("data" <= "message") by { assert "data"[0] != "message"[0]; }
    DataStepKeepsOthers(reg, rec, WithMessage(None, reg, rec, b, fuel).value, fuel, "message");
  }

  /** When the pattern does not match a string message, no `message` field is written. */
  lemma PatternMissDropsMessage(colorize: bool, p: Pattern, reg: Registry, rec: LogRecord, fuel: nat)
    requires rec.msg.Str? && p.search(rec.message).None?
    requires Assemble(colorize, Some(p), reg, rec, fuel).Ok?
    ensures "message" !in Keys(Assemble(colorize, Some(p), reg, rec, fuel).value)
  {
    var b := Base(colorize, rec).value;
    BaseWithoutMessage(colorize, rec);
    assert !("data" <= "message") by { assert "data"[0] != "message"[0]; }
    DataStepKeepsOthers(reg, rec, b, fuel, "message");
  }

  /**
   * A pattern that matches a string message makes the call raise: ValueError
   * when it has no named groups, and otherwise KeyError, because the
   * `message` field it deletes is never set for a string message.
   */
  lemma MatchingPatternRaises(colorize: bool, p: Pattern, reg: Registry, rec: LogRecord, fuel: nat)
    requires rec.msg.Str? && p.search(rec.message).Some? && Base(colorize, rec).Ok?
    ensures p.search(rec.message).value == [] ==> Assemble(colorize, Some(p), reg, rec, fuel) == Err(ValueError)
    ensures p.search(rec.message).value != [] ==> Assemble(colorize, Some(p), reg, rec, fuel) == Err(KeyError)
  {
    BaseWithoutMessage(colorize, rec);
  }

  /**
   * A message that is not a string is expanded under `message`: a failing
   * expansion fails the call with its error, and otherwise every expanded
   * path is a field holding its text.
   */
  lemma ExpandedMessage(colorize: bool, regex: Option<Pattern>, reg: Registry, rec: LogRecord, fuel: nat)
    requires !rec.msg.Str? && Base(colorize, rec).Ok?
    ensures Expand(reg, rec.msg, "message", fuel).Err? ==>
      Assemble(colorize, regex, reg, rec, fuel) == Err(Expand(reg, rec.msg, "message", fuel).error)
    ensures Expand(reg, rec.msg, "message", fuel).Ok? && Assemble(colorize, regex, reg, rec, fuel).Ok? ==>
      var f := Expand(reg, rec.msg, "message", fuel).value;
      forall i :: 0 <= i < |f| ==> Get(Assemble(colorize, regex, reg, rec, fuel).value, f[i].0) == Some(Some(f[i].1))
  {
    var b := Base(colorize, rec).value;
    if Expand(reg, rec.msg, "message", fuel).Ok? && Assemble(colorize, regex, reg, rec, fuel).Ok? {
      var f := Expand(reg, rec.msg, "message", fuel).value;
      ExpandShape(reg, rec.msg, "message", fuel);
      var m := Update(b, Lift(f));
      forall i | 0 <= i < |f|
        ensures Get(Assemble(colorize, regex, reg, rec, fuel).value, f[i].0) == Some(Some(f[i].1))
      {
        MergeFinds(b, f, i);
        match Get(rec.attrs, "data")
        case Some(v) =>
          if v != NoneValue {
            var g := Expand(reg, v, "data", fuel).value;
            ExpandKeysPrefixed(reg, v, "data", fuel);
            assert "message" <= f[i].0 && !("data" <= f[i].0) by {
              assert f[i].0 in Keys(f);
              assert f[i].0[0] == 'm';
            }
            MergeKeepsOthers(m, g, "data", f[i].0);
          }
        case None =>
      }
    }
  }

  /**
   * A `data` attribute that is not None is expanded under `data`, whatever
   * the message: a failing expansion fails the call with its error, and
   * otherwise every expanded path is a field holding its text.
   */
  lemma ExpandedData(colorize: bool, regex: Option<Pattern>, reg: Registry, rec: LogRecord, fuel: nat, m: Fields)
    requires Base(colorize, rec).Ok? && WithMessage(regex, reg, rec, Base(colorize, rec).value, fuel) == Ok(m)
    requires Get(rec.attrs, "data").Some? && Get(rec.attrs, "data").value != NoneValue
    ensures var v := Get(rec.attrs, "data").value;
      && (Expand(reg, v, "data", fuel).Err? ==>
            Assemble(colorize, regex, reg, rec, fuel) == Err(Expand(reg, v, "data", fuel).error))
      && (Expand(reg, v, "data", fuel).Ok? ==>
            var f := Expand(reg, v, "data", fuel).value;
            && Assemble(colorize, regex, reg, rec, fuel).Ok?
            && forall i :: 0 <= i < |f| ==> Get(Assemble(colorize, regex, reg, rec, fuel).value, f[i].0) == Some(Some(f[i].1)))
  {
    var v := Get(rec.attrs, "data").value;
    if Expand(reg, v, "data", fuel).Ok? {
      var f := Expand(reg, v, "data", fuel).value;
      ExpandShape(reg, v, "data", fuel);
      forall i | 0 <= i < |f| ensures Get(Update(m, Lift(f)), f[i].0) == Some(Some(f[i].1)) {
        MergeFinds(m, f, i);
      }
    }
  }

  // ---------------------------------------------------------------------
  // Exclusion and None removal

  /**
   * A field is written out with value `v` exactly when it is not excluded
   * and the assembled fields hold `v` under it; excluded fields and fields
   * holding None are not written.
   */
  lemma WrittenFields(colorize: bool, excludeKeys: set<string>, regex: Option<Pattern>, reg: Registry,
                      rec: LogRecord, fuel: nat, k: string)
    requires LineFields(colorize, excludeKeys, regex, reg, rec, fuel).Ok?
    ensures var fs := LineFields(colorize, excludeKeys, regex, reg, rec, fuel).value;
      var d := Assemble(colorize, regex, reg, rec, fuel).value;
      Get(fs, k) == if k in excludeKeys then None else Written(Get(d, k))
  {
    var d := Assemble(colorize, regex, reg, rec, fuel).value;
    AssembleUnique(colorize, regex, reg, rec, fuel);
    ExcludeUnique(d, excludeKeys);
    GetPresent(Exclude(d, excludeKeys), k);
    GetExclude(d, excludeKeys, k);
  }

  // ---------------------------------------------------------------------
  // The shipped registry on records

  /**
   * With the shipped registry, a list message (as in the package's own
   * list test) makes `format` raise TypeError instead of writing
   * `message[0]=...`.
   */
  lemma ShippedListMessageRaises(colorize: bool, excludeKeys: set<string>, regex: Option<Pattern>, highlight: set<string>,
                                 rec: LogRecord, fuel: nat)
    requires rec.msg.List? && fuel > 0 && rec.levelno in {DEBUG, INFO, WARNING, ERROR, CRITICAL}
    ensures Line(colorize, excludeKeys, regex, highlight, DefaultFormatters, rec, fuel) == Err(TypeError)
  {
    LevelTables(rec.levelno);
    ShippedRegistryReachesTuple(rec.msg, "message", fuel);
  }

  /** The record of the package's simplest test: a DEBUG record with a string message and nothing else. */
  function SimpleRecord(): LogRecord
  {
    LogRecord("simple", DEBUG, Some("test_simple"), "2024-01-01T00:00:00+00:00",
              Str("Hello, world!"), "Hello, world!", [], None, None)
  }

  /** The fields `SimpleRecord` is written with, in order. */
  function SimpleFields(): Flat
  {
    [("time", "2024-01-01T00:00:00+00:00"), ("function", "test_simple"), ("name", "simple"),
     ("level", "DEBUG"), ("message", "Hello, world!")]
  }

  /** The simple record's fields: seeded ones, then name and level, then the message. */
  lemma SimpleRecordFields()
    ensures Assemble(false, None, DefaultFormatters, SimpleRecord(), 1) == Ok(Lift(SimpleFields()))
  {
    var rec := SimpleRecord();
    var seed := Seed(rec);
    assert ExtraPairs(rec.attrs) == [];
    assert Extras(rec) == [];
    var nl: Fields := [("name", Some("simple")), ("level", Some("DEBUG"))];
    var s1 := seed + [("name", Some("simple"))];
    var b := seed + nl;
    assert Update(seed, nl) == b by {
      assert nl[..1] == [("name", Some("simple"))] && nl[..1][..0] == [];
      assert Keys(seed) == ["time", "function"];
      AssignAbsent(seed, "name", Some("simple"));
      assert Update(seed, nl[..1]) == s1;
      assert Keys(s1) == ["time", "function", "name"];
      AssignAbsent(s1, "level", Some("DEBUG"));
    }
    assert Base(false, rec) == Ok(b);
    var d := b + [("message", Some("Hello, world!"))];
    assert Keys(b) == ["time", "function", "name", "level"];
    AssignAbsent(b, "message", Some("Hello, world!"));
    assert Get(rec.attrs, "data") == None;
    assert d == Lift(SimpleFields());
  }

  /** Every field of the simple record is written out. */
  lemma SimpleRecordWritten()
    ensures LineFields(false, {}, None, DefaultFormatters, SimpleRecord(), 1) == Ok(SimpleFields())
  {
    SimpleRecordFields();
    ExcludeNothing(Lift(SimpleFields()));
    PresentLift(SimpleFields());
  }

  /** The line of the simple record, as the package's simplest test logs it: its five fields space-joined. */
  lemma SimpleRecordLine()
    ensures Line(false, {}, None, {"message"}, DefaultFormatters, SimpleRecord(), 1)
            == Ok(Render(false, {"message"}, SimpleFields()))
  {
    SimpleRecordWritten();
  }

  /** The simple record's message holds a space, so it is written quoted. */
  lemma SimpleMessageQuoted()
    ensures KeyValue(false, {"message"}, "message", "Hello, world!") == "message=\"Hello, world!\""
  {
    assert ' ' in "Hello, world!";
  }

  /** A record from logger `app` at INFO that carries an extra attribute called `level`. */
  function ExtraLevelRecord(): LogRecord
  {
    LogRecord("app", INFO, None, "t", Str("hi"), "hi", [("level", Str("x"))], None, None)
  }

  /** Before `name` and `level` are set, the extra `level` follows the seeded fields. */
  lemma ExtraLevelSeeded()
    ensures Update(Seed(ExtraLevelRecord()), Extras(ExtraLevelRecord())) ==
      [("time", Some("t")), ("function", None), ("level", Some("x"))]
  {
    var rec := ExtraLevelRecord();
    assert ExtraPairs(rec.attrs) == [("level", Some("x"))] by {
      assert ExtraPairs(rec.attrs[1..]) == [];
    }
    var e: Fields := [("level", Some("x"))];
    assert e[..0] == [];
    assert Extras(rec) == e;
    assert Keys(Seed(rec)) == ["time", "function"];
    AssignAbsent(Seed(rec), "level", Some("x"));
  }

  /**
   * `name` and `level` are set last but an extra `level` attribute keeps
   * its earlier place: the level is then written before the name.
   */
  lemma ExtraLevelKeepsItsPlace()
    ensures Base(false, ExtraLevelRecord()).Ok?
    ensures Keys(Base(false, ExtraLevelRecord()).value) == ["time", "function", "level", "name"]
  {
    var rec := ExtraLevelRecord();
    ExtraLevelSeeded();
    var s: Fields := [("time", Some("t")), ("function", None), ("level", Some("x"))];
    var nl := Stamp(rec, "INFO");
    assert nl[..1] == [("name", Some("app"))] && nl[..1][..0] == [];
    var s1 := s + [("name", Some("app"))];
    assert Keys(s) == ["time", "function", "level"];
    AssignAbsent(s, "name", Some("app"));
    assert Update(s, nl[..1]) == s1;
    AssignInPlace(s1, 2, Some("INFO"));
    var s2: Fields := [("time", Some("t")), ("function", None), ("level", Some("INFO")), ("name", Some("app"))];
    assert Update(s, nl) == s2;
    assert Base(false, rec) == Ok(s2);
  }

  // ---------------------------------------------------------------------
  // The coloured line and the plain line

  /** A field value with colour on and off: the same, or the plain text painted in `code`. */
  predicate TintsField(c: Option<string>, p: Option<string>, code: string)
  {
    c == p || (c.Some? && p.Some? && c.value == Paint(code, p.value))
  }

  /** The fields of one record assembled with colour on and off: the same keys in the same places. */
  predicate TintedFields(colored: Fields, plain: Fields, code: string)
  {
    && |colored| == |plain|
    && forall i :: 0 <= i < |plain| ==> colored[i].0 == plain[i].0 && TintsField(colored[i].1, plain[i].1, code)
  }

  lemma TintedKeys(colored: Fields, plain: Fields, code: string)
    requires TintedFields(colored, plain, code)
    ensures Keys(colored) == Keys(plain)
  {
    assert forall i :: 0 <= i < |plain| ==> Keys(colored)[i] == Keys(plain)[i];
  }

  lemma TintedSplit(colored: Fields, plain: Fields, code: string)
    requires TintedFields(colored, plain, code) && plain != []
    ensures colored[0].0 == plain[0].0 && TintsField(colored[0].1, plain[0].1, code)
    ensures TintedFields(colored[1..], plain[1..], code)
  {
    assert forall i :: 0 <= i < |plain| - 1 ==> colored[1..][i] == colored[i + 1] && plain[1..][i] == plain[i + 1];
  }

  lemma TintedCons(x: (string, Option<string>), y: (string, Option<string>), colored: Fields, plain: Fields, code: string)
    requires x.0 == y.0 && TintsField(x.1, y.1, code) && TintedFields(colored, plain, code)
    ensures TintedFields([x] + colored, [y] + plain, code)
  {
    assert forall i :: 0 < i <= |plain| ==> ([x] + colored)[i] == colored[i - 1] && ([y] + plain)[i] == plain[i - 1];
  }

  /** Assigning tinted values to the same key keeps the fields tinted. */
  lemma {:induction false} TintedAssign(colored: Fields, plain: Fields, code: string, k: string,
                                        cv: Option<string>, pv: Option<string>)
    requires TintedFields(colored, plain, code) && TintsField(cv, pv, code)
    ensures TintedFields(Assign(colored, k, cv), Assign(plain, k, pv), code)
  {
    if plain != [] {
      TintedSplit(colored, plain, code);
      if plain[0].0 == k {
        TintedCons((k, cv), (k, pv), colored[1..], plain[1..], code);
      } else {
        TintedAssign(colored[1..], plain[1..], code, k, cv, pv);
        TintedCons(colored[0], plain[0], Assign(colored[1..], k, cv), Assign(plain[1..], k, pv), code);
      }
    }
  }

  lemma {:induction false} TintedUpdate(colored: Fields, plain: Fields, code: string, o: Fields)
    requires TintedFields(colored, plain, code)
    ensures TintedFields(Update(colored, o), Update(plain, o), code)
    decreases |o|
  {
    if o != [] {
      var init, last := o[..|o| - 1], o[|o| - 1];
      TintedUpdate(colored, plain, code, init);
      TintedAssign(Update(colored, init), Update(plain, init), code, last.0, last.1, last.1);
    }
  }

  lemma {:induction false} TintedWithout(colored: Fields, plain: Fields, code: string, k: string)
    requires TintedFields(colored, plain, code)
    ensures TintedFields(Without(colored, k), Without(plain, k), code)
  {
    if plain != [] {
      TintedSplit(colored, plain, code);
      TintedWithout(colored[1..], plain[1..], code, k);
      if plain[0].0 != k {
        TintedCons(colored[0], plain[0], Without(colored[1..], k), Without(plain[1..], k), code);
      }
    }
  }

  lemma {:induction false} TintedExclude(colored: Fields, plain: Fields, code: string, s: set<string>)
    requires TintedFields(colored, plain, code)
    ensures TintedFields(Exclude(colored, s), Exclude(plain, s), code)
  {
    if plain != [] {
      TintedSplit(colored, plain, code);
      TintedExclude(colored[1..], plain[1..], code, s);
      if plain[0].0 !in s {
        TintedCons(colored[0], plain[0], Exclude(colored[1..], s), Exclude(plain[1..], s), code);
      }
    }
  }

  lemma {:induction false} TintedPresent(colored: Fields, plain: Fields, code: string)
    requires TintedFields(colored, plain, code)
    ensures TintedPairs(Present(colored), Present(plain), code)
  {
    if plain != [] {
      TintedSplit(colored, plain, code);
      TintedPresent(colored[1..], plain[1..], code);
      var cs, ps := Present(colored[1..]), Present(plain[1..]);
      if plain[0].1.Some? {
        var x, y := (colored[0].0, colored[0].1.value), (plain[0].0, plain[0].1.value);
        assert Present(colored) == [x] + cs && Present(plain) == [y] + ps;
        assert forall i :: 0 < i <= |ps| ==> ([x] + cs)[i] == cs[i - 1] && ([y] + ps)[i] == ps[i - 1];
      } else {
        assert Present(colored) == cs && Present(plain) == ps;
      }
    }
  }

  lemma UpdateStamp(d: Fields, rec: LogRecord, level: string)
    ensures Update(d, Stamp(rec, level)) == Assign(Assign(d, "name", Some(rec.name)), "level", Some(level))
  {
    var st := Stamp(rec, level);
    assert st[..1] == [("name", Some(rec.name))] && st[..1][..0] == [];
    assert Update(d, st[..1][..0]) == d;
    assert Update(d, st[..1]) == Assign(d, "name", Some(rec.name));
  }

  /** With colour on, the fields before the message step differ only in the painted level word. */
  lemma TintedBase(rec: LogRecord)
    ensures Base(true, rec).Ok? <==> Base(false, rec).Ok?
    ensures Base(true, rec).Err? ==> Base(true, rec) == Base(false, rec)
    ensures Base(true, rec).Ok? ==> TintedFields(Base(true, rec).value, Base(false, rec).value, LevelColor(rec.levelno))
  {
    LevelTables(rec.levelno);
    if Base(true, rec).Ok? {
      var code := LevelColor(rec.levelno);
      var cw, pw := LevelWordColored(rec.levelno).value, LevelWordPlain(rec.levelno).value;
      var s := Update(Seed(rec), Extras(rec));
      assert TintedFields(s, s, code);
      UpdateStamp(s, rec, cw);
      UpdateStamp(s, rec, pw);
      var n := Assign(s, "name", Some(rec.name));
      TintedAssign(s, s, code, "name", Some(rec.name), Some(rec.name));
      TintedAssign(n, n, code, "level", Some(cw), Some(pw));
    }
  }

  /** The message step treats tinted fields alike: the same outcome, and tinted results. */
  lemma TintedMessage(regex: Option<Pattern>, reg: Registry, rec: LogRecord, colored: Fields, plain: Fields,
                      fuel: nat, code: string)
    requires TintedFields(colored, plain, code)
    ensures WithMessage(regex, reg, rec, colored, fuel).Ok? <==> WithMessage(regex, reg, rec, plain, fuel).Ok?
    ensures WithMessage(regex, reg, rec, colored, fuel).Err? ==>
      WithMessage(regex, reg, rec, colored, fuel) == WithMessage(regex, reg, rec, plain, fuel)
    ensures WithMessage(regex, reg, rec, colored, fuel).Ok? ==>
      TintedFields(WithMessage(regex, reg, rec, colored, fuel).value, WithMessage(regex, reg, rec, plain, fuel).value, code)
  {
    TintedKeys(colored, plain, code);
    if !rec.msg.Str? {
      match Expand(reg, rec.msg, "message", fuel)
      case Err(_) =>
      case Ok(f) => TintedUpdate(colored, plain, code, Lift(f));
    } else if regex.Some? {
      match regex.value.search(rec.message)
      case None =>
      case Some(groups) =>
        if groups != [] && "message" in Keys(plain) {
          TintedWithout(colored, plain, code, "message");
          TintedUpdate(Without(colored, "message"), Without(plain, "message"), code, groups);
        }
    } else {
      TintedAssign(colored, plain, code, "message", Some(rec.message), Some(rec.message));
    }
  }

  /** The data step treats tinted fields alike. */
  lemma TintedData(reg: Registry, rec: LogRecord, colored: Fields, plain: Fields, fuel: nat, code: string)
    requires TintedFields(colored, plain, code)
    ensures WithData(reg, rec, colored, fuel).Ok? <==> WithData(reg, rec, plain, fuel).Ok?
    ensures WithData(reg, rec, colored, fuel).Err? ==> WithData(reg, rec, colored, fuel) == WithData(reg, rec, plain, fuel)
    ensures WithData(reg, rec, colored, fuel).Ok? ==>
      TintedFields(WithData(reg, rec, colored, fuel).value, WithData(reg, rec, plain, fuel).value, code)
  {
    match Get(rec.attrs, "data")
    case None =>
    case Some(v) =>
      if v != NoneValue {
        match Expand(reg, v, "data", fuel)
        case Err(_) =>
        case Ok(f) => TintedUpdate(colored, plain, code, Lift(f));
      }
  }

  /**
   * Colour changes nothing but the level word: both modes fail alike, and
   * the written fields have the same keys, each coloured value the plain
   * one or, for the level, the plain word painted in its colour.
   */
  lemma ColoredLineFields(excludeKeys: set<string>, regex: Option<Pattern>, reg: Registry, rec: LogRecord, fuel: nat)
    ensures LineFields(true, excludeKeys, regex, reg, rec, fuel).Ok? <==> LineFields(false, excludeKeys, regex, reg, rec, fuel).Ok?
    ensures LineFields(true, excludeKeys, regex, reg, rec, fuel).Err? ==>
      LineFields(true, excludeKeys, regex, reg, rec, fuel) == LineFields(false, excludeKeys, regex, reg, rec, fuel)
    ensures LineFields(true, excludeKeys, regex, reg, rec, fuel).Ok? ==>
      && IsCode(LevelColor(rec.levelno))
      && TintedPairs(LineFields(true, excludeKeys, regex, reg, rec, fuel).value,
                     LineFields(false, excludeKeys, regex, reg, rec, fuel).value, LevelColor(rec.levelno))
  {
    var code := LevelColor(rec.levelno);
    TintedBase(rec);
    LevelTables(rec.levelno);
    if Base(true, rec).Ok? {
      var bc, bp := Base(true, rec).value, Base(false, rec).value;
      TintedMessage(regex, reg, rec, bc, bp, fuel, code);
      if WithMessage(regex, reg, rec, bc, fuel).Ok? {
        var mc, mp := WithMessage(regex, reg, rec, bc, fuel).value, WithMessage(regex, reg, rec, bp, fuel).value;
        TintedData(reg, rec, mc, mp, fuel, code);
        if WithData(reg, rec, mc, fuel).Ok? {
          var dc, dp := WithData(reg, rec, mc, fuel).value, WithData(reg, rec, mp, fuel).value;
          TintedExclude(dc, dp, code, excludeKeys);
          TintedPresent(Exclude(dc, excludeKeys), Exclude(dp, excludeKeys), code);
        }
      }
    }
  }

  /** The text `format` appends after the pairs: the exception text, then the stack text. */
  lemma LineTail(colorize: bool, excludeKeys: set<string>, regex: Option<Pattern>, highlight: set<string>,
                 reg: Registry, rec: LogRecord, fuel: nat, tail: string)
    requires LineFields(colorize, excludeKeys, regex, reg, rec, fuel).Ok?
    requires tail == (if rec.excText.Some? then "\n" + rec.excText.value else "")
                     + (if rec.stackText.Some? then "\n" + rec.stackText.value else "")
    ensures Line(colorize, excludeKeys, regex, highlight, reg, rec, fuel)
            == Ok(Render(colorize, highlight, LineFields(colorize, excludeKeys, regex, reg, rec, fuel).value) + tail)
  {
    var line := Render(colorize, highlight, LineFields(colorize, excludeKeys, regex, reg, rec, fuel).value);
    AppendTexts(line, rec.excText, rec.stackText);
  }

  lemma AppendTexts(line: string, exc: Option<string>, stack: Option<string>)
    ensures var withException := if exc.Some? then line + "\n" + exc.value else line;
      (if stack.Some? then withException + "\n" + stack.value else withException)
      == line + ((if exc.Some? then "\n" + exc.value else "") + (if stack.Some? then "\n" + stack.value else ""))
  {
    var e := if exc.Some? then "\n" + exc.value else "";
    var t := if stack.Some? then "\n" + stack.value else "";
    var withException := if exc.Some? then line + "\n" + exc.value else line;
    assert withException == line + e;
    assert (if stack.Some? then withException + "\n" + stack.value else withException) == (line + e) + t;
    assert (line + e) + t == line + (e + t);
  }

  /**
   * The coloured line with its colour codes removed is the plain line,
   * for a record whose written fields and exception and stack texts hold
   * no escape character.
   */
  lemma ColoredLineStripped(excludeKeys: set<string>, regex: Option<Pattern>, highlight: set<string>,
                            reg: Registry, rec: LogRecord, fuel: nat)
    requires LineFields(false, excludeKeys, regex, reg, rec, fuel).Ok?
    requires EscapeFree(LineFields(false, excludeKeys, regex, reg, rec, fuel).value)
    requires rec.excText.Some? ==> ESC !in rec.excText.value
    requires rec.stackText.Some? ==> ESC !in rec.stackText.value
    ensures Line(true, excludeKeys, regex, highlight, reg, rec, fuel).Ok?
    ensures Strip(Line(true, excludeKeys, regex, highlight, reg, rec, fuel).value)
            == Line(false, excludeKeys, regex, highlight, reg, rec, fuel).value
  {
    ColoredLineFields(excludeKeys, regex, reg, rec, fuel);
    var cs := LineFields(true, excludeKeys, regex, reg, rec, fuel).value;
    var ps := LineFields(false, excludeKeys, regex, reg, rec, fuel).value;
    var tail := (if rec.excText.Some? then "\n" + rec.excText.value else "")
                + (if rec.stackText.Some? then "\n" + rec.stackText.value else "");
    LineTail(true, excludeKeys, regex, highlight, reg, rec, fuel, tail);
    LineTail(false, excludeKeys, regex, highlight, reg, rec, fuel, tail);
    StripColoredLine(highlight, LevelColor(rec.levelno), cs, ps, tail);
    assert ESC !in tail;
    StripClean(tail, "");
    assert tail + "" == tail;
  }
}
