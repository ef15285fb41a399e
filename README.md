# logfmt formatter model

A Dafny model of the core of `harp_logfmt`. This is a Python `logging.Formatter` that writes each log record as one logfmt line: `key=value` pairs joined by spaces. The model covers three things:

- **Field assembly**: the ordered field dictionary `format` builds. It seeds `time` and `function`, then adds the record's extra attributes, then `name` and `level`. It then adds the message (a plain string, a structure expanded into paths, or the groups of a message pattern) and finally the `data` attachment. After that, excluded keys and keys holding None are deleted.
- **Value expansion**: the recursive `_format_value`. It scans the rule registry from newest to oldest and takes the first rule that claims the value. It then expands, in order, the children the rule hands back, under paths `prefix[key]` or `prefix.key`. It covers the five shipped rules of `value_formatters.py` and user rules.
- **Rendering**: `kv_to_logfmt`, the two level-word tables and the ANSI colouring. The colour codes come from `src/ansicolors.py`.

The model follows the code as written, not as the package's own tests expect it to behave:

- The shipped registry keys its namespace rule with a *tuple* of classes. During the newest-first scan, that entry is reached before the iterable and mapping entries, and calling it raises TypeError. So with the default rules, any non-string value that is not a dataclass instance or a namedtuple makes `format` raise TypeError. This includes lists, dicts, ints and namespaces. A dataclass or namedtuple whose fields are not all strings raises too. The package's tests expect `message[0]=1`, `message[a]=1` and `message.a=1` instead.
- A message pattern that matches with named groups raises KeyError. The reason is that `del data["message"]` runs before `message` was ever set, because `message` is a standard record attribute and is never copied in. A match without named groups raises ValueError. A pattern that does not match writes no `message` field at all.
- `name` and `level` are written last, but an extra attribute already called `level` keeps its earlier place in the dictionary. Only its value is overwritten.

Two further behaviours the model states:

- A value whose rule hands back no children expands to no fields at all. With a registry where the iterable or mapping rule is reached, an empty list, tuple or mapping therefore leaves nothing in the line. With the shipped registry the tuple key raises TypeError first.
- Colour changes only the text. A record fails in colour exactly when it fails without, and the coloured line with its escape codes removed is the plain line, as long as the record's own texts hold no escape character.

Modules:

- `Runtime`: Option, Result and the Python exceptions that can come out.
- `OrderedMap`: Python dict semantics on sequences of pairs (`d[k] = v`, `update`, `del`, `get`).
- `Values`: the Python values the formatter meets, and `str()` of them.
- `ValueFormatters`: the five shipped rules and the default registry.
- `Expansion`: `_format_value` as a function, plus the registry operations.
- `Rendering`: logfmt pairs, level words, colours.
- `Formatter`: the field assembly as functions, and the `LogfmtFormatter` class. The class's methods run the same loops as the Python code and are proved equal to those functions.

## Model

| member | source | states |
|---|---|---|
| Formatter.LogfmtFormatter.constructor | src/harp_logfmt/formatter.py:20-40 | the settings are stored, each defaulting as in Python (colours on, nothing excluded, no pattern, `message` highlighted, default rules included); the registry starts empty, or as a copy of the default rules when they are included; either way no key is registered twice (`Valid`) |
| Formatter.DefaultFormatter | src/harp_logfmt/formatter.py:20-40 | `LogfmtFormatter()` with no arguments has colours on, no excluded keys, no pattern, `message` highlighted and exactly the default rules, with distinct keys |
| Formatter.LogfmtFormatter.AddCustomFormatter | src/harp_logfmt/formatter.py:197-198 | the registry becomes `custom_formatters[condition] = formatter`: a known key keeps its place, a new one goes last; keys stay distinct; no other setting changes |
| Formatter.LogfmtFormatter.CustomFormatter | src/harp_logfmt/formatter.py:200-207 | the decorator registers the function and hands back the very same function |
| Formatter.LogfmtFormatter.RemoveCustomFormatter | src/harp_logfmt/formatter.py:209-210 | a registered key is deleted; an unknown key gives KeyError and leaves the registry unchanged; keys stay distinct |
| Formatter.LogfmtFormatter.FormatValue | src/harp_logfmt/formatter.py:130-148 | the newest-first registry scan and its outcome equal the expansion `Expand` (string passthrough, the first claiming rule, TypeError from a tuple key, `str()` fallback) |
| Formatter.LogfmtFormatter.ApplyFormatter | src/harp_logfmt/formatter.py:139-147 | the children are expanded in order under `[key]` or `.key` and merged with `update`; the first failing child fails the call |
| Formatter.LogfmtFormatter.AssembleFields | src/harp_logfmt/formatter.py:151-182 | the dictionary built before exclusion equals `Assemble`: seed, extras, name and level, message step, data step |
| Formatter.LogfmtFormatter.DeleteExcluded | src/harp_logfmt/formatter.py:183-186 | deleting the keys common to the dictionary and the exclusion set, one by one, leaves exactly the entries whose key is not excluded, in order |
| Formatter.LogfmtFormatter.DeleteNone | src/harp_logfmt/formatter.py:187-189 | deleting every None-valued key while iterating a copy leaves the other entries in order; none of the remaining values is None and the written fields are unchanged |
| Formatter.LogfmtFormatter.Format | src/harp_logfmt/formatter.py:150-195 | the line equals `Line`: rendered pairs, then the exception text and then the stack text, each after a newline |
| Formatter.MergeFinds | src/harp_logfmt/formatter.py:170 | after `data.update` with an expansion whose paths are unique, each path holds its text |
| Formatter.MergeKeepsOthers | src/harp_logfmt/formatter.py:182 | merging an expansion whose paths all start with a prefix leaves every key outside the prefix as it was, and the keys become the old keys and the expansion's paths |
| Formatter.FieldPrecedence | src/harp_logfmt/formatter.py:152-167 | in the assembled fields `time` and `function` are first; `name` and `level` always hold the logger name and level word; `time` and `function` keep their seeded values unless an extra attribute replaced them |
| Formatter.LaterStepsKeepOthers | src/harp_logfmt/formatter.py:168-181 | the message and data steps leave every key not under `message` or `data` with its value and place |
| Formatter.MessageStepKeepsOthers | src/harp_logfmt/formatter.py:168-180 | the message step leaves every key not under `message` alone and keeps existing positions |
| Formatter.DataStepKeepsOthers | src/harp_logfmt/formatter.py:181-182 | the data step leaves every key not under `data` alone and keeps existing positions |
| Formatter.BaseFields | src/harp_logfmt/formatter.py:152-167 | before the message step: `time`, `function` first; name and level set; no `message` key; any other key holds its extra attribute if present, else its seed |
| Formatter.BaseOrder | src/harp_logfmt/formatter.py:152-155 | `time` and `function` are the first two keys |
| Formatter.BaseStamp | src/harp_logfmt/formatter.py:165-167 | `name` and `level` hold the logger name and the level word |
| Formatter.BaseWithoutMessage | src/harp_logfmt/formatter.py:98-123 | `message` is a standard attribute, so it is never among the fields before the message step |
| Formatter.BaseOthers | src/harp_logfmt/formatter.py:158-164 | any key other than name and level holds its extra attribute when there is one, otherwise its seeded value |
| Formatter.BaseSeedValues | src/harp_logfmt/formatter.py:152-155 | `time` and `function` keep the record's time and function name when no extra attribute has that name |
| Formatter.ExtrasKeys | src/harp_logfmt/formatter.py:158-164 | the copied extra attributes hold each key once and never a standard attribute name |
| Formatter.ExtraPairsKeys | src/harp_logfmt/formatter.py:161-163 | the comprehension skips every standard attribute |
| Formatter.UnknownLevelRaises | src/harp_logfmt/formatter.py:125-128 | a level number outside the five levels makes `format` raise KeyError |
| Formatter.StringMessageWritten | src/harp_logfmt/formatter.py:179-180 | without a pattern, a string message is written as `message` |
| Formatter.PatternMissDropsMessage | src/harp_logfmt/formatter.py:171-173 | a pattern that does not match leaves no `message` field |
| Formatter.MatchingPatternRaises | src/harp_logfmt/formatter.py:173-178 | a matching pattern raises ValueError without named groups and KeyError with them |
| Formatter.ExpandedMessage | src/harp_logfmt/formatter.py:168-170 | a non-string message fails the call with its expansion's error, or else every expanded path is a field holding its text |
| Formatter.ExpandedData | src/harp_logfmt/formatter.py:181-182 | a non-None `data` attachment fails the call with its expansion's error, or else every expanded path is a field holding its text, whatever the message did |
| Formatter.WrittenFields | src/harp_logfmt/formatter.py:183-190 | a field is written with value `v` exactly when it is not excluded and the assembled fields hold `v` (not None) under it |
| Formatter.AssembleUnique | src/harp_logfmt/formatter.py:150-182 | the assembled dictionary holds every key once |
| Formatter.ShippedListMessageRaises | src/harp_logfmt/value_formatters.py:35-46 | with the default rules, a list message makes `format` raise TypeError |
| Formatter.SimpleRecordFields | src/harp_logfmt/formatter.py:152-181 | a DEBUG record "Hello, world!" from logger `simple` in `test_simple` assembles to time, function, name, level, message in that order |
| Formatter.SimpleRecordWritten | src/harp_logfmt/formatter.py:183-189 | all five fields of that record are written |
| Formatter.SimpleRecordLine | src/harp_logfmt/formatter.py:190-195 | its line is those five pairs, space-joined |
| Formatter.SimpleMessageQuoted | src/harp_logfmt/formatter.py:78-79 | its message holds a space and is written `message="Hello, world!"` |
| Formatter.ExtraLevelKeepsItsPlace | src/harp_logfmt/formatter.py:158-167 | an extra attribute `level` keeps its place before `name`: the keys come out as time, function, level, name |
| Formatter.PresentLift | src/harp_logfmt/formatter.py:190 | fields that all hold a value are rendered as they are |
| Formatter.PresentWithoutNone | src/harp_logfmt/formatter.py:187-189 | dropping the None-valued keys does not change what is written |
| Formatter.NoneFree | src/harp_logfmt/formatter.py:187-189 | after the deletion no value is None |
| Formatter.DeleteStep | src/harp_logfmt/formatter.py:185-189 | each key deleted is still present when `del` runs, so the deletion never raises |
| Expansion.IndexOf | src/harp_logfmt/formatter.py:197-198 | the place of a registry key: the first entry with an equal key, or none |
| Expansion.FindRule | src/harp_logfmt/formatter.py:133-138 | the scan picks an index below the bound, and its only error is TypeError |
| Expansion.FindRulePicks | src/harp_logfmt/formatter.py:133-138 | entry `i` is picked exactly when it claims the value and every newer entry declines it |
| Expansion.FindRuleNone | src/harp_logfmt/formatter.py:133-148 | no entry is picked exactly when every entry declines |
| Expansion.FindRuleFails | src/harp_logfmt/formatter.py:134-137 | the scan fails exactly when calling a key raises and every newer entry declined |
| Expansion.ExpandBaseCases | src/harp_logfmt/formatter.py:131-148 | a string is returned under the prefix as it is; a value every entry declines is then written with `str()` under the prefix |
| Expansion.ExpandShape | src/harp_logfmt/formatter.py:130-148 | every expanded path starts with the prefix, and no path occurs twice |
| Expansion.ApplyShape | src/harp_logfmt/formatter.py:139-147 | the same for the expansion of one rule's children |
| Expansion.ChildrenShape | src/harp_logfmt/formatter.py:144-146 | the merged children give unique keys, each an old key or under some child's path |
| Expansion.ExpandKeysPrefixed | src/harp_logfmt/formatter.py:130-148 | every key of an expansion under a prefix starts with that prefix |
| Expansion.ExpandFuelSuffices | src/harp_logfmt/formatter.py:130-148 | with the shipped rules, a recursion budget deeper than the value changes nothing and never gives RecursionError |
| Expansion.ApplyFuelSuffices | src/harp_logfmt/formatter.py:139-147 | the same for one shipped rule's children |
| Expansion.ChildrenFuelSuffices | src/harp_logfmt/formatter.py:144-146 | the same for a list of children shallower than the budget |
| Expansion.ChildrenOutcome | src/harp_logfmt/formatter.py:144-147 | merging children succeeds exactly when every child's expansion succeeds, and otherwise gives the first child error |
| Expansion.ExpandEach | src/harp_logfmt/formatter.py:144-145 | each child expanded on its own under its path: on success, one expansion per child, in order, each the child's own `_format_value` |
| Expansion.ChildrenMerge | src/harp_logfmt/formatter.py:144-146 | the children loop equals expanding every child on its own and then folding the expansions into the base with `update`, or the first child error |
| Expansion.ChildrenContents | src/harp_logfmt/formatter.py:142-147 | after a successful loop the base keys keep their places; a path holds the value from the last child expansion that has it, else its value in the base |
| Expansion.ChildPathInjective | src/harp_logfmt/formatter.py:145 | under one prefix and one style, different keys give different child paths |
| Expansion.StringChildrenMerge | src/harp_logfmt/formatter.py:144-146 | children that are strings under distinct keys are appended to the base in order, each as its own path and text |
| Expansion.ShippedRecordOfStrings | src/harp_logfmt/value_formatters.py:27-32 | with the default rules, a dataclass or namedtuple of string fields gives exactly one `prefix.name` field per attribute, in field order |
| Expansion.IterableOfStrings | src/harp_logfmt/value_formatters.py:14-15 | when the iterable rule is the newest entry, a list of strings gives exactly one `prefix[i]` field per element, in order |
| Expansion.IterableExample | src/harp_logfmt/value_formatters.py:14-15 | a registry holding only the iterable rule writes `["x", "y"]` under `m` as `m[0]=x`, `m[1]=y` |
| OrderedMap.UpdateEachGet | src/harp_logfmt/formatter.py:146 | after several `update` calls a key holds the value of the last dictionary that has it, or its old value if none has it |
| OrderedMap.UpdateEachKeepsPositions | src/harp_logfmt/formatter.py:146 | repeated `update` calls keep every existing key in its place |
| Expansion.ShippedRegistryReachesTuple | src/harp_logfmt/value_formatters.py:35-46 | with the default rules the scan picks the namedtuple rule, then the dataclass rule, and otherwise fails with TypeError on the tuple key |
| Expansion.ShippedRegistryRecord | src/harp_logfmt/value_formatters.py:27-32 | a dataclass or namedtuple is expanded field by field with `.` paths |
| Expansion.ShippedRegistryOutcome | src/harp_logfmt/value_formatters.py:35-46 | with the default rules, expansion succeeds exactly for strings and for dataclasses and namedtuples made of such values; everything else raises TypeError |
| Expansion.ShippedRegistryFields | src/harp_logfmt/value_formatters.py:27-32 | the field-by-field expansion succeeds exactly when every field's does |
| Expansion.RegisterPlacement | src/harp_logfmt/formatter.py:197-198 | registering keeps keys distinct; a known key keeps its place with the new rule, and a new key is appended |
| Expansion.UnregisterRemovesOnlyIt | src/harp_logfmt/formatter.py:209-210 | removing fails with KeyError exactly when the key is absent, and otherwise removes only that entry |
| Expansion.RegisterThenUnregister | src/harp_logfmt/formatter.py:197-210 | adding a new rule and removing it again restores the registry |
| Expansion.IndexOfAppended | src/harp_logfmt/formatter.py:197-198 | a new key is found at the end after registration |
| Expansion.RegisteredRuleWins | src/harp_logfmt/formatter.py:133-147 | a newly registered rule that claims a value is picked ahead of every older rule |
| ValueFormatters.FormatIterableEnumerates | src/harp_logfmt/value_formatters.py:14-15 | `format_iterable` gives one bracketed child per element, keyed by its decimal position; a non-iterable raises TypeError |
| ValueFormatters.EnumeratedDistinct | src/harp_logfmt/value_formatters.py:15 | the position keys are distinct, so no element is lost |
| ValueFormatters.FormatMappingKeys | src/harp_logfmt/value_formatters.py:10-11 | `format_mapping` gives one bracketed child per distinct `str(key)`, at its first place, holding the last value with that text; a non-mapping raises AttributeError |
| ValueFormatters.FormatMappingCollapses | src/harp_logfmt/value_formatters.py:10-11 | keys `1` and `"1"` collapse into one child holding the later value |
| ValueFormatters.FormatNamespaceAttributes | src/harp_logfmt/value_formatters.py:18-24 | `format_namespace` gives the instance attributes in order with `.` paths |
| ValueFormatters.FormatDataclassFields | src/harp_logfmt/value_formatters.py:27-28 | `format_dataclass` gives the declared fields in order with `.` paths; a non-dataclass raises TypeError |
| ValueFormatters.FormatNamedTupleFields | src/harp_logfmt/value_formatters.py:31-32 | `format_namedtuple` gives `_asdict()` in order with `.` paths; anything else raises AttributeError |
| ValueFormatters.ShippedRulesYieldComponents | src/harp_logfmt/value_formatters.py:10-32 | the shipped rules hand back only components of their input |
| Values.ComponentDepth | src/harp_logfmt/formatter.py:144-145 | each component is nested strictly less deeply than its container, so the recursion descends |
| Values.IntStrInjective | src/harp_logfmt/value_formatters.py:15 | distinct positions have distinct decimal texts |
| Rendering.QuotedIffSpace | src/harp_logfmt/formatter.py:70-80 | a pair is quoted exactly when its (possibly coloured) value contains a space |
| Rendering.PlainPairRoundTrip | src/harp_logfmt/formatter.py:70-80 | a plain pair reads back as its key and value when the key holds no `=` |
| Rendering.ColoredPairRoundTrip | src/harp_logfmt/formatter.py:70-80 | a coloured pair, painted value included, reads back as the plain key and value once its codes are removed |
| Rendering.StripColoredPair | src/harp_logfmt/formatter.py:70-80 | removing the codes from a coloured pair gives the plain pair, also when the value was painted before rendering (the level word) |
| Rendering.StripColoredLine | src/harp_logfmt/formatter.py:190 | removing the codes from a coloured line gives the plain line when the pairs have the same keys and each coloured value is the plain one or the plain one painted; what follows the line is stripped on its own |
| Rendering.LineAmbiguity | src/harp_logfmt/formatter.py:78-79 | since quotes are not escaped, one pair and two different pairs can render to the same line |
| Rendering.LevelTables | src/harp_logfmt/formatter.py:82-96 | both tables know exactly the five levels, an unknown level is a KeyError, and each coloured word is the plain word painted in its level colour, so without its codes it is the plain word |
| Rendering.DebugLevelDoublyPainted | src/harp_logfmt/formatter.py:74-88 | with colour on, the already coloured DEBUG word is wrapped in the value colour a second time |
| Rendering.StripPainted | src/ansicolors.py:7-35 | removing codes from a painted text leaves the text |
| Formatter.TintedBase | src/harp_logfmt/formatter.py:165-167 | with colour on, the fields before the message step fail alike and otherwise differ only in the level word, painted in its colour |
| Formatter.ColoredLineFields | src/harp_logfmt/formatter.py:125-189 | with colour on and off `format` fails alike with the same error, and otherwise writes the same keys in the same order, each value the plain one or, for the level, the plain word painted |
| Formatter.ColoredLineStripped | src/harp_logfmt/formatter.py:70-195 | when the written texts and the exception and stack texts hold no escape character, the coloured line with its codes removed is the plain line |
| Formatter.Base | src/harp_logfmt/formatter.py:152-167 | definition of the seeded fields, extras, name and level; characterised by BaseFields and FieldPrecedence |
| Formatter.WithMessage | src/harp_logfmt/formatter.py:168-180 | definition of the message step; characterised by ExpandedMessage, StringMessageWritten, PatternMissDropsMessage, MatchingPatternRaises and MessageStepKeepsOthers |
| Formatter.WithData | src/harp_logfmt/formatter.py:181-182 | definition of the data step; characterised by ExpandedData and DataStepKeepsOthers |
| Formatter.Assemble | src/harp_logfmt/formatter.py:152-182 | definition of the dictionary before exclusion; characterised by AssembleUnique, FieldPrecedence and LaterStepsKeepOthers |
| Formatter.LineFields | src/harp_logfmt/formatter.py:183-190 | definition of the written pairs; characterised by WrittenFields and ColoredLineFields |
| Formatter.Line | src/harp_logfmt/formatter.py:150-195 | definition of `format`; characterised by ColoredLineStripped, UnknownLevelRaises and SimpleRecordLine, and implemented by `LogfmtFormatter.Format` |
| Expansion.Matches | src/harp_logfmt/formatter.py:134-137 | definition of the key test: `isinstance` for a class, a call otherwise, TypeError for a tuple; characterised by FindRulePicks and FindRuleFails |
| Expansion.Expand | src/harp_logfmt/formatter.py:130-148 | definition of `_format_value`; characterised by ExpandBaseCases, ExpandShape, ExpandFuelSuffices and ShippedRegistryOutcome, and implemented by `LogfmtFormatter.FormatValue` |
| Expansion.ApplyAndExpand | src/harp_logfmt/formatter.py:139-147 | definition of running a rule and expanding its children; characterised by ApplyShape and EmptyChildrenNoFields |
| Expansion.ExpandChildren | src/harp_logfmt/formatter.py:144-146 | definition of the children loop; characterised by ChildrenShape, ChildrenOutcome, ChildrenMerge and ChildrenContents |
| Expansion.EmptyChildrenNoFields | src/harp_logfmt/formatter.py:139-147 | a rule that hands back no children gives no fields; the iterable rule does so for an empty list or tuple, the mapping rule for an empty mapping |
| Expansion.Register | src/harp_logfmt/formatter.py:197-198 | definition of `custom_formatters[k] = r`; characterised by RegisterPlacement |
| Expansion.Unregister | src/harp_logfmt/formatter.py:209-210 | definition of `del custom_formatters[k]`; characterised by UnregisterRemovesOnlyIt |
| Expansion.ShippedRegistryDistinct | src/harp_logfmt/value_formatters.py:35-46 | `default_formatters` holds five distinct keys, each mapped to a shipped rule |
| ValueFormatters.ApplyFormatIterable | src/harp_logfmt/value_formatters.py:14-15 | definition of `format_iterable`; characterised by FormatIterableEnumerates |
| ValueFormatters.ApplyFormatMapping | src/harp_logfmt/value_formatters.py:10-11 | definition of `format_mapping`; characterised by FormatMappingKeys |
| ValueFormatters.ApplyFormatNamespace | src/harp_logfmt/value_formatters.py:18-24 | definition of `format_namespace`; characterised by FormatNamespaceAttributes |
| ValueFormatters.ApplyFormatDataclass | src/harp_logfmt/value_formatters.py:27-28 | definition of `format_dataclass`; characterised by FormatDataclassFields |
| ValueFormatters.ApplyFormatNamedTuple | src/harp_logfmt/value_formatters.py:31-32 | definition of `format_namedtuple`; characterised by FormatNamedTupleFields |
| Rendering.KeyValue | src/harp_logfmt/formatter.py:70-80 | definition of `kv_to_logfmt`; characterised by QuotedIffSpace, PlainPairRoundTrip and StripColoredPair |
| Rendering.LevelWordPlain | src/harp_logfmt/formatter.py:90-96 | definition of `level_words`; characterised by LevelTables |
| Rendering.LevelWordColored | src/harp_logfmt/formatter.py:82-88 | definition of `level_words_colored`; characterised by LevelTables |
| Rendering.LevelWord | src/harp_logfmt/formatter.py:125-128 | definition of `colorize_level_if_debug`; characterised by LevelTables and TintedBase |
| Rendering.Render | src/harp_logfmt/formatter.py:190 | definition of the space-joined line; characterised by StripColoredLine and LineAmbiguity |

## Left out

- Time: `datetime.fromtimestamp(...).astimezone(...).isoformat` is not modelled. The record carries its time already written as text.
- The constructor's `timezone` argument is not modelled, because the time arrives as text. Its `*args` and `**kwargs`, which go to `logging.Formatter` (including the `datefmt` default), are not modelled either.
- `taskName` (Python 3.12 and later) is not modelled; the model follows the code path for older versions.
- `getMessage()`, `formatException` and `formatStack` are not modelled. The record carries their results as text.
- The regular-expression engine is not modelled. A message pattern is a given function from the message to the `groupdict()` of its first match.
- The property setters and getters (`exclude_keys`, `msg_regex`, `highlight_keys`) are not modelled beyond the class fields they set. `re.compile` of a string pattern is left out with the engine.
- A key predicate that raises, or a key that is neither a class, a tuple nor a callable, is not modelled. Key predicates are total functions here. (A user rule may raise; its exception propagates out of the expansion.)
- `isinstance` is modelled on the value shapes the model knows. `Iterable` holds for strings, lists, tuples, mappings and namedtuples. `Mapping` holds for mappings. Any other class is known by its name: it matches the values of that type, and every value is an `object`. Subclassing beyond `tuple` for namedtuples is not modelled, and neither are sets, generators or other iterables.
- `str()` of compound values is simplified: the repr of strings does not escape backslashes or quotes, and floats, ints and other atoms carry their text.
- Recursion depth: `fuel` stands for the recursion limit. Running out gives RecursionError. For the shipped rules, `ExpandFuelSuffices` shows any budget deeper than the value gives the same result. Cyclic values are not modelled.
- Concurrency (registry changes during `format`) is not modelled.
- Formatter.SimpleRecordLine: it states the line as the rendering of the five fields rather than writing out the whole line's text, because evaluating the full literal is too costly for the verifier. The quoted message pair is stated in `SimpleMessageQuoted`.
