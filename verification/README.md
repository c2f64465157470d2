# PlatformInfo — a Dafny model of the DdlUtils dialect descriptor

`PlatformInfo` describes how one database dialect departs from generic SQL. It has
two facets:

- **Capability flags.** Fifteen scalar settings: nine booleans, the maximum identifier
  length (a Java `int`, where -1 means no limit) and five strings (identifier delimiter,
  value quote, comment prefix, comment suffix, command delimiter).
- **Type-mapping registry.** A map from JDBC type code to native type name, plus three
  classification sets of type codes: null default, sized, and precision/scale. Mappings
  are added by numeric code or by the name of a `java.sql.Types` constant.

The model is functional. `Platform.PlatformInfo` is an immutable record holding
`Flags` and `Registry`. Each Java mutator is a pure function from the old record to the
new one. Each Java getter (`isPrimaryKeyEmbedded()`, `getCommentPrefix()`, …) is the
record field of the same name, because it only returns that field. Type codes and the
identifier length are `JdbcTypes.Int32`, a Java `int`. Nothing in the class does
arithmetic on them. Every Java `String` can be `null`, so it is `Option<string>`, with
`None` standing for `null`. This applies to the stored tokens, the native type names and
the constant name given to the by-name insertion.

`Configuration` models how a dialect gets configured. It constructs a record and then
calls the mutators in any order. That sequence of calls is a script `seq<Op>`, executed by
`Run`. An `Op` is one of four kinds of call: a flag setter (`SetFlag`, naming the Java
setter), one of the two insertions, or `SetHas(k, code, b)`. `SetHas` stands for
`setHasNullDefault`, `setHasSize` or `setHasPrecisionAndScale`, depending on `k`.
The lemmas there state what every getter returns after any script. Each flag
getter returns the value of the last setter call for that flag, or its value before the
script. The same holds for native-type lookups and set membership. The comment tokens are
never null. By-name insertion is the same as insertion by the resolved code, or as no call
at all when the name does not resolve.

Name resolution uses reflection in the source (`Types.class.getField(name).getInt(null)`).
Here it is a parameter, `typeNames: map<string, Int32>`, giving the public int constants of
`java.sql.Types` on the running JVM. A `null` name never resolves: `getField(null)` throws
a `NullPointerException`, and the same `catch (Exception)` block handles it.

Two behaviours of the class are easy to miss:

- The delimiter token, the value quote token and the command delimiter can be set to
  `null`, and a later getter call returns `null`. Only the two comment setters turn `null`
  into `""`.
- `addNativeTypeMapping(code, null)` stores a `null` entry in the `HashMap`. After that,
  `getNativeType(code)` returns `null`, exactly as for a code that was never mapped. So
  "no native type" means either "never mapped" or "mapped to null".

## Model

| member | source | states |
|---|---|---|
| Platform.New | src/java/org/apache/ddlutils/PlatformInfo.java:39-117 | A new record has the documented default of every flag, maps no code to a native type, and its three sets hold exactly the seed codes: CHAR, VARCHAR, LONGVARCHAR, CLOB, BINARY, VARBINARY, LONGVARBINARY and BLOB for null default; CHAR, VARCHAR, BINARY and VARBINARY for size; DECIMAL and NUMERIC for precision/scale |
| Platform.Seed | src/java/org/apache/ddlutils/PlatformInfo.java:101-116 | Adding a list of codes one at a time makes exactly those codes members, beyond the codes already there, and touches nothing else |
| Platform.FlagsExtensional | src/java/org/apache/ddlutils/PlatformInfo.java:38-82 | Two flag records on which all fifteen getters agree are the same record |
| Platform.SetRequiringNullAsDefaultValue | src/java/org/apache/ddlutils/PlatformInfo.java:136-139 | The getter then returns the argument; every other flag, the map and the sets are unchanged |
| Platform.SetPrimaryKeyEmbedded | src/java/org/apache/ddlutils/PlatformInfo.java:159-162 | The getter then returns the argument; every other flag, the map and the sets are unchanged |
| Platform.SetForeignKeysEmbedded | src/java/org/apache/ddlutils/PlatformInfo.java:182-185 | The getter then returns the argument; every other flag, the map and the sets are unchanged |
| Platform.SetIndicesEmbedded | src/java/org/apache/ddlutils/PlatformInfo.java:204-207 | The getter then returns the argument; every other flag, the map and the sets are unchanged |
| Platform.SetEmbeddedForeignKeysNamed | src/java/org/apache/ddlutils/PlatformInfo.java:224-227 | The getter then returns the argument; every other flag, the map and the sets are unchanged |
| Platform.SetUseAlterTableForDrop | src/java/org/apache/ddlutils/PlatformInfo.java:246-249 | The getter then returns the argument; every other flag, the map and the sets are unchanged |
| Platform.SetMaxIdentifierLength | src/java/org/apache/ddlutils/PlatformInfo.java:266-269 | Any int is accepted, -1 included, and the getter returns it; everything else is unchanged |
| Platform.SetCaseSensitive | src/java/org/apache/ddlutils/PlatformInfo.java:286-289 | The getter then returns the argument; every other flag, the map and the sets are unchanged |
| Platform.SetUseDelimitedIdentifiers | src/java/org/apache/ddlutils/PlatformInfo.java:309-312 | The getter then returns the argument; every other flag, the map and the sets are unchanged |
| Platform.SetDelimiterToken | src/java/org/apache/ddlutils/PlatformInfo.java:330-333 | The getter then returns the argument, even null (no coercion); everything else is unchanged |
| Platform.SetValueQuoteToken | src/java/org/apache/ddlutils/PlatformInfo.java:353-356 | The getter then returns the argument, even null (no coercion); everything else is unchanged |
| Platform.SetCommentsSupported | src/java/org/apache/ddlutils/PlatformInfo.java:373-376 | The getter then returns the argument; every other flag, the map and the sets are unchanged |
| Platform.SetCommentPrefix | src/java/org/apache/ddlutils/PlatformInfo.java:393-396 | The getter then returns the argument if it is non-null and "" if it is null; everything else is unchanged; a non-null prefix and suffix stay non-null |
| Platform.SetCommentSuffix | src/java/org/apache/ddlutils/PlatformInfo.java:414-417 | The getter then returns the argument if it is non-null and "" if it is null; everything else is unchanged; a non-null prefix and suffix stay non-null |
| Platform.SetSqlCommandDelimiter | src/java/org/apache/ddlutils/PlatformInfo.java:434-437 | The getter then returns the argument, even null (no coercion); everything else is unchanged |
| Platform.AddNativeTypeMapping | src/java/org/apache/ddlutils/PlatformInfo.java:445-448 | A lookup of the code then returns the given native type; the lookups of all other codes, the flags and the three sets are unchanged |
| Platform.AddNativeTypeMappingLastWins | src/java/org/apache/ddlutils/PlatformInfo.java:445-448 | Mapping the same code twice has the effect of the second mapping alone |
| Platform.AddNativeTypeMappingByName | src/java/org/apache/ddlutils/PlatformInfo.java:461-477 | A name that resolves has exactly the effect of inserting by its code, with no warning; a null or unknown name leaves the whole record unchanged, logs a warning and throws nothing |
| Platform.NamedInsertionLookup | src/java/org/apache/ddlutils/PlatformInfo.java:461-488 | After a by-name insertion, a lookup of the resolved code gives the native type, and every other lookup, or every lookup when the name does not resolve, is as before |
| Platform.SetHas | src/java/org/apache/ddlutils/PlatformInfo.java:497-583 | After setting membership of a code in one set, the query for that code returns the flag; other codes, the other two sets, the map and the flags are unchanged |
| Platform.SetHasNullDefault | src/java/org/apache/ddlutils/PlatformInfo.java:497-519 | hasNullDefault(code) then returns the flag; it is unchanged for other codes; the other sets, the map and the flags are unchanged |
| Platform.SetHasSize | src/java/org/apache/ddlutils/PlatformInfo.java:528-550 | hasSize(code) then returns the flag; it is unchanged for other codes; the other sets, the map and the flags are unchanged |
| Platform.SetHasPrecisionAndScale | src/java/org/apache/ddlutils/PlatformInfo.java:560-583 | hasPrecisionAndScale(code) then returns the flag; it is unchanged for other codes; the other sets, the map and the flags are unchanged |
| Platform.SetHasIdempotent | src/java/org/apache/ddlutils/PlatformInfo.java:497-570 | Repeating a set mutator call with the same arguments gives the same record as the single call |
| Platform.SetHasLastWins | src/java/org/apache/ddlutils/PlatformInfo.java:497-570 | Of two calls for the same code and set, only the second has an effect |
| Platform.SetHasAddThenRemove | src/java/org/apache/ddlutils/PlatformInfo.java:497-583 | Adding a code and then removing it makes it a non-member, the same as removing it alone |
| Configuration.ApplyWrites | src/java/org/apache/ddlutils/PlatformInfo.java:136-437 | After a setter call, that flag's getter returns the value passed, or "" for a null comment prefix or suffix |
| Configuration.ApplyKeepsOthers | src/java/org/apache/ddlutils/PlatformInfo.java:136-437 | A setter call changes no other flag's getter and leaves the registry unchanged |
| Configuration.StepFrame | src/java/org/apache/ddlutils/PlatformInfo.java:136-570 | A flag setter leaves the registry unchanged, and a registry mutator leaves every flag unchanged |
| Configuration.StepFlagValue | src/java/org/apache/ddlutils/PlatformInfo.java:136-437 | After one call, each flag getter returns the value that call writes to it, with null coerced to "" for the comment tokens, or its previous value |
| Configuration.StepNativeType | src/java/org/apache/ddlutils/PlatformInfo.java:445-488 | After one call, each lookup returns the native type that call maps the code to, by number or by a resolved name, or its previous result |
| Configuration.StepMembership | src/java/org/apache/ddlutils/PlatformInfo.java:497-583 | After one call, each membership query returns what that call set for the code and set, or its previous answer |
| Configuration.RunFlagValue | src/java/org/apache/ddlutils/PlatformInfo.java:119-437 | After any sequence of calls, every flag getter returns the value of the last setter call for that flag, or the value from before the sequence if there was none |
| Configuration.RunNativeType | src/java/org/apache/ddlutils/PlatformInfo.java:439-488 | After any sequence of calls, a lookup returns the native type of the last mapping of that code, or the earlier result if there was none (last write wins) |
| Configuration.RunMembership | src/java/org/apache/ddlutils/PlatformInfo.java:490-583 | After any sequence of calls, a membership query returns the last flag set for that code in that set, or the earlier answer if there was none |
| Configuration.RunFromNewUntouchedCode | src/java/org/apache/ddlutils/PlatformInfo.java:85-117 | Starting from a new record, a code that no call maps has no native type, and a code that no call adds to or removes from one set keeps exactly its seed membership of that set, whatever is done to it in the other sets |
| Configuration.RunKeepsCommentsPresent | src/java/org/apache/ddlutils/PlatformInfo.java:393-417 | No sequence of calls makes the comment prefix or suffix null, given non-null values at the start, as a new record has |
| Configuration.FlagWritesCommute | src/java/org/apache/ddlutils/PlatformInfo.java:136-437 | Two setter calls for different flags give the same record in either order |
| Configuration.FlagWriteOverwritten | src/java/org/apache/ddlutils/PlatformInfo.java:136-437 | Two setter calls for the same flag have the effect of the second call alone |
| Configuration.Resolve | src/java/org/apache/ddlutils/PlatformInfo.java:461-477 | Resolving a script leaves no by-name insertion in it |
| Configuration.RunResolved | src/java/org/apache/ddlutils/PlatformInfo.java:461-477 | A script has the same effect as the script in which each by-name insertion is replaced by the insertion by its resolved code, or dropped if the name does not resolve |
| Configuration.ResolvedIgnoresTypeNames | src/java/org/apache/ddlutils/PlatformInfo.java:445-448 | A script without by-name insertions has the same effect whichever type names resolve |

The four queries `GetNativeType`, `HasNullDefault`, `HasSize` and `HasPrecisionAndScale`
(lines 479-488, 516-519, 547-550 and 580-583) carry no contract of their own; what they
return is stated by the rows for `New`, `AddNativeTypeMapping`, `NamedInsertionLookup`, the
`SetHas*` mutators, `StepNativeType`, `StepMembership`, `RunNativeType`, `RunMembership`
and `RunFromNewUntouchedCode`.
The model has value semantics, so two records
built by `New()` without mutation are equal.

## Left out

- Logging: the `_log` field (line 36) and the warning (line 475) have no effect on the
  record. The warning is modelled only as the `warned` result of
  `Platform.AddNativeTypeMappingByName`.
- Reflection: `Types.class.getField(...)` and `getInt(null)` (lines 465-469) become
  the `typeNames` map parameter. The model does not list which `java.sql.Types`
  constants exist on which JVM version. The `constant != null` test (line 467) cannot fail,
  because `getField` throws instead of returning null. Every failure of the reflective
  lookup lands in the same catch block, so the model treats it as "the name is not in
  `typeNames`".
- Boxing through `new Integer(...)` and the raw `HashMap`/`HashSet` types: they are a
  Dafny `map` and `set` of `Int32` codes.
- Thread safety: the class has no synchronization, and the model is a value with no
  shared mutable state.
- Consumers of the descriptor, such as SQL builders and model readers, are not part of
  this model.
