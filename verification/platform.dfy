/**
 Model of `PlatformInfo`: the record describing one database dialect.

 The record has two facets: the scalar capability flags, and the registry
 that maps JDBC type codes to native type names and classifies type codes
 into three sets (null default, sized, precision and scale). Every Java
 mutator becomes a pure function from the old record to the new one; every
 Java getter is the record field of the same name.
 */
module Platform {
  import opened Wrappers
  import opened JdbcTypes

  /** The fifteen scalar settings. A Java `String` may be null, hence `Option<string>`. */
  datatype Flags = Flags(
    requiringNullAsDefaultValue: bool,
    primaryKeyEmbedded: bool,
    foreignKeysEmbedded: bool,
    indicesEmbedded: bool,
    embeddedForeignKeysNamed: bool,
    useAlterTableForDrop: bool,
    maxIdentifierLength: Int32,
    caseSensitive: bool,
    useDelimitedIdentifiers: bool,
    delimiterToken: Option<string>,
    valueQuoteToken: Option<string>,
    commentsSupported: bool,
    commentPrefix: Option<string>,
    commentSuffix: Option<string>,
    sqlCommandDelimiter: Option<string>)

  /** The type-mapping registry. A `HashMap` keeps a key that was put with a
      null value, so the stored native type is itself optional. */
  datatype Registry = Registry(
    nativeTypes: map<Int32, Option<string>>,
    typesWithNullDefault: set<Int32>,
    typesWithSize: set<Int32>,
    typesWithPrecisionAndScale: set<Int32>)

  datatype PlatformInfo = PlatformInfo(flags: Flags, registry: Registry)

  /** Names of the scalar settings, so that "every other flag" can be quantified over. */
  datatype Flag =
    | RequiringNullAsDefaultValue
    | PrimaryKeyEmbedded
    | ForeignKeysEmbedded
    | IndicesEmbedded
    | EmbeddedForeignKeysNamed
    | UseAlterTableForDrop
    | MaxIdentifierLength
    | CaseSensitive
    | UseDelimitedIdentifiers
    | DelimiterToken
    | ValueQuoteToken
    | CommentsSupported
    | CommentPrefix
    | CommentSuffix
    | SqlCommandDelimiter

  /** The value of one scalar setting, whatever its Java type. */
  datatype Value = BoolValue(b: bool) | IntValue(i: Int32) | TextValue(s: Option<string>)

  /** What the getter of flag `k` returns. */
  function FlagValue(f: Flags, k: Flag): Value {
    match k
    case RequiringNullAsDefaultValue => BoolValue(f.requiringNullAsDefaultValue)
    case PrimaryKeyEmbedded => BoolValue(f.primaryKeyEmbedded)
    case ForeignKeysEmbedded => BoolValue(f.foreignKeysEmbedded)
    case IndicesEmbedded => BoolValue(f.indicesEmbedded)
    case EmbeddedForeignKeysNamed => BoolValue(f.embeddedForeignKeysNamed)
    case UseAlterTableForDrop => BoolValue(f.useAlterTableForDrop)
    case MaxIdentifierLength => IntValue(f.maxIdentifierLength)
    case CaseSensitive => BoolValue(f.caseSensitive)
    case UseDelimitedIdentifiers => BoolValue(f.useDelimitedIdentifiers)
    case DelimiterToken => TextValue(f.delimiterToken)
    case ValueQuoteToken => TextValue(f.valueQuoteToken)
    case CommentsSupported => BoolValue(f.commentsSupported)
    case CommentPrefix => TextValue(f.commentPrefix)
    case CommentSuffix => TextValue(f.commentSuffix)
    case SqlCommandDelimiter => TextValue(f.sqlCommandDelimiter)
  }

  /** Every getter other than the one of `k` returns the same in `f` and `g`. */
  ghost predicate FlagsAgreeExcept(f: Flags, g: Flags, k: Flag) {
    forall j :: j != k ==> FlagValue(f, j) == FlagValue(g, j)
  }

  /** Two flag records that no getter tells apart are the same record. */
  lemma FlagsExtensional(f: Flags, g: Flags)
    requires forall k :: FlagValue(f, k) == FlagValue(g, k)
    ensures f == g
  {
    assert FlagValue(f, RequiringNullAsDefaultValue) == FlagValue(g, RequiringNullAsDefaultValue);
    assert FlagValue(f, PrimaryKeyEmbedded) == FlagValue(g, PrimaryKeyEmbedded);
    assert FlagValue(f, ForeignKeysEmbedded) == FlagValue(g, ForeignKeysEmbedded);
    assert FlagValue(f, IndicesEmbedded) == FlagValue(g, IndicesEmbedded);
    assert FlagValue(f, EmbeddedForeignKeysNamed) == FlagValue(g, EmbeddedForeignKeysNamed);
    assert FlagValue(f, UseAlterTableForDrop) == FlagValue(g, UseAlterTableForDrop);
    assert FlagValue(f, MaxIdentifierLength) == FlagValue(g, MaxIdentifierLength);
    assert FlagValue(f, CaseSensitive) == FlagValue(g, CaseSensitive);
    assert FlagValue(f, UseDelimitedIdentifiers) == FlagValue(g, UseDelimitedIdentifiers);
    assert FlagValue(f, DelimiterToken) == FlagValue(g, DelimiterToken);
    assert FlagValue(f, ValueQuoteToken) == FlagValue(g, ValueQuoteToken);
    assert FlagValue(f, CommentsSupported) == FlagValue(g, CommentsSupported);
    assert FlagValue(f, CommentPrefix) == FlagValue(g, CommentPrefix);
    assert FlagValue(f, CommentSuffix) == FlagValue(g, CommentSuffix);
    assert FlagValue(f, SqlCommandDelimiter) == FlagValue(g, SqlCommandDelimiter);
  }

  /** The comment prefix and suffix hold a string, never null. */
  ghost predicate CommentsPresent(p: PlatformInfo) {
    p.flags.commentPrefix.Some? && p.flags.commentSuffix.Some?
  }

  // ---------------------------------------------------------------------
  // Construction
  // ---------------------------------------------------------------------

  /** The flag values set by the field initialisers. */
  const DefaultFlags := Flags(
    requiringNullAsDefaultValue := false,
    primaryKeyEmbedded := true,
    foreignKeysEmbedded := false,
    indicesEmbedded := false,
    embeddedForeignKeysNamed := false,
    useAlterTableForDrop := false,
    maxIdentifierLength := -1,
    caseSensitive := false,
    useDelimitedIdentifiers := true,
    delimiterToken := Some("\""),
    valueQuoteToken := Some("'"),
    commentsSupported := true,
    commentPrefix := Some("--"),
    commentSuffix := Some(""),
    sqlCommandDelimiter := Some(";"))

  /** The constructor: field defaults, an empty native-type map, and the
      classification sets seeded one code at a time, as the constructor body does. */
  function New(): (p: PlatformInfo)
    ensures !p.flags.requiringNullAsDefaultValue && p.flags.primaryKeyEmbedded
    ensures !p.flags.foreignKeysEmbedded && !p.flags.indicesEmbedded
    ensures !p.flags.embeddedForeignKeysNamed && !p.flags.useAlterTableForDrop
    ensures p.flags.maxIdentifierLength == -1 && !p.flags.caseSensitive
    ensures p.flags.useDelimitedIdentifiers && p.flags.commentsSupported
    ensures p.flags.delimiterToken == Some("\"") && p.flags.valueQuoteToken == Some("'")
    ensures p.flags.commentPrefix == Some("--") && p.flags.commentSuffix == Some("")
    ensures p.flags.sqlCommandDelimiter == Some(";")
    ensures CommentsPresent(p)
    ensures forall c :: GetNativeType(p, c) == None
    ensures forall c :: HasNullDefault(p, c) <==>
      c in {CHAR, VARCHAR, LONGVARCHAR, CLOB, BINARY, VARBINARY, LONGVARBINARY, BLOB}
    ensures forall c :: HasSize(p, c) <==> c in {CHAR, VARCHAR, BINARY, VARBINARY}
    ensures forall c :: HasPrecisionAndScale(p, c) <==> c in {DECIMAL, NUMERIC}
  {
    var empty := PlatformInfo(DefaultFlags, Registry(map[], {}, {}, {}));
    var nulls := Seed(empty, NullDefault, [CHAR, VARCHAR, LONGVARCHAR, CLOB, BINARY, VARBINARY, LONGVARBINARY, BLOB]);
    var sized := Seed(nulls, Size, [CHAR, VARCHAR, BINARY, VARBINARY]);
    var p := Seed(sized, PrecisionAndScale, [DECIMAL, NUMERIC]);
    assert Members(p.registry, NullDefault) == Members(sized.registry, NullDefault) == Members(nulls.registry, NullDefault);
    assert Members(p.registry, Size) == Members(sized.registry, Size);
    assert forall c :: Has(p, NullDefault, c) == Has(nulls, NullDefault, c);
    assert forall c :: Has(p, Size, c) == Has(sized, Size, c);
    p
  }

  /** Adds each of `codes` to set `k`, one `SetHas` call at a time, as the
      constructor body does. */
  function Seed(p: PlatformInfo, k: Classification, codes: seq<Int32>): (r: PlatformInfo)
    ensures forall c :: Has(r, k, c) <==> Has(p, k, c) || c in codes
    ensures forall j :: j != k ==> Members(r.registry, j) == Members(p.registry, j)
    ensures r.registry.nativeTypes == p.registry.nativeTypes
    ensures r.flags == p.flags
    decreases |codes|
  {
    if |codes| == 0 then p
    else SetHas(Seed(p, k, codes[..|codes| - 1]), k, codes[|codes| - 1], true)
  }

  // ---------------------------------------------------------------------
  // Capability flags: one setter per flag; none validates or coerces,
  // except the two comment setters, which store "" for null.
  // ---------------------------------------------------------------------

  function SetRequiringNullAsDefaultValue(p: PlatformInfo, requiresNullAsDefaultValue: bool): (r: PlatformInfo)
    ensures r.flags.requiringNullAsDefaultValue == requiresNullAsDefaultValue
    ensures FlagsAgreeExcept(p.flags, r.flags, RequiringNullAsDefaultValue)
    ensures r.registry == p.registry
  {
    p.(flags := p.flags.(requiringNullAsDefaultValue := requiresNullAsDefaultValue))
  }

  function SetPrimaryKeyEmbedded(p: PlatformInfo, primaryKeyEmbedded: bool): (r: PlatformInfo)
    ensures r.flags.primaryKeyEmbedded == primaryKeyEmbedded
    ensures FlagsAgreeExcept(p.flags, r.flags, PrimaryKeyEmbedded)
    ensures r.registry == p.registry
  {
    p.(flags := p.flags.(primaryKeyEmbedded := primaryKeyEmbedded))
  }

  function SetForeignKeysEmbedded(p: PlatformInfo, foreignKeysEmbedded: bool): (r: PlatformInfo)
    ensures r.flags.foreignKeysEmbedded == foreignKeysEmbedded
    ensures FlagsAgreeExcept(p.flags, r.flags, ForeignKeysEmbedded)
    ensures r.registry == p.registry
  {
    p.(flags := p.flags.(foreignKeysEmbedded := foreignKeysEmbedded))
  }

  function SetIndicesEmbedded(p: PlatformInfo, indicesEmbedded: bool): (r: PlatformInfo)
    ensures r.flags.indicesEmbedded == indicesEmbedded
    ensures FlagsAgreeExcept(p.flags, r.flags, IndicesEmbedded)
    ensures r.registry == p.registry
  {
    p.(flags := p.flags.(indicesEmbedded := indicesEmbedded))
  }

  function SetEmbeddedForeignKeysNamed(p: PlatformInfo, embeddedForeignKeysNamed: bool): (r: PlatformInfo)
    ensures r.flags.embeddedForeignKeysNamed == embeddedForeignKeysNamed
    ensures FlagsAgreeExcept(p.flags, r.flags, EmbeddedForeignKeysNamed)
    ensures r.registry == p.registry
  {
    p.(flags := p.flags.(embeddedForeignKeysNamed := embeddedForeignKeysNamed))
  }

  function SetUseAlterTableForDrop(p: PlatformInfo, useAlterTableForDrop: bool): (r: PlatformInfo)
    ensures r.flags.useAlterTableForDrop == useAlterTableForDrop
    ensures FlagsAgreeExcept(p.flags, r.flags, UseAlterTableForDrop)
    ensures r.registry == p.registry
  {
    p.(flags := p.flags.(useAlterTableForDrop := useAlterTableForDrop))
  }

  /** Any Java int is accepted; -1 is the "no limit" sentinel, not an error. */
  function SetMaxIdentifierLength(p: PlatformInfo, maxIdentifierLength: Int32): (r: PlatformInfo)
    ensures r.flags.maxIdentifierLength == maxIdentifierLength
    ensures FlagsAgreeExcept(p.flags, r.flags, MaxIdentifierLength)
    ensures r.registry == p.registry
  {
    p.(flags := p.flags.(maxIdentifierLength := maxIdentifierLength))
  }

  function SetCaseSensitive(p: PlatformInfo, caseSensitive: bool): (r: PlatformInfo)
    ensures r.flags.caseSensitive == caseSensitive
    ensures FlagsAgreeExcept(p.flags, r.flags, CaseSensitive)
    ensures r.registry == p.registry
  {
    p.(flags := p.flags.(caseSensitive := caseSensitive))
  }

  function SetUseDelimitedIdentifiers(p: PlatformInfo, useDelimitedIdentifiers: bool): (r: PlatformInfo)
    ensures r.flags.useDelimitedIdentifiers == useDelimitedIdentifiers
    ensures FlagsAgreeExcept(p.flags, r.flags, UseDelimitedIdentifiers)
    ensures r.registry == p.registry
  {
    p.(flags := p.flags.(useDelimitedIdentifiers := useDelimitedIdentifiers))
  }

  /** Stores the token as given, null included. */
  function SetDelimiterToken(p: PlatformInfo, delimiterToken: Option<string>): (r: PlatformInfo)
    ensures r.flags.delimiterToken == delimiterToken
    ensures FlagsAgreeExcept(p.flags, r.flags, DelimiterToken)
    ensures r.registry == p.registry
  {
    p.(flags := p.flags.(delimiterToken := delimiterToken))
  }

  /** Stores the token as given, null included. */
  function SetValueQuoteToken(p: PlatformInfo, valueQuoteChar: Option<string>): (r: PlatformInfo)
    ensures r.flags.valueQuoteToken == valueQuoteChar
    ensures FlagsAgreeExcept(p.flags, r.flags, ValueQuoteToken)
    ensures r.registry == p.registry
  {
    p.(flags := p.flags.(valueQuoteToken := valueQuoteChar))
  }

  function SetCommentsSupported(p: PlatformInfo, commentsSupported: bool): (r: PlatformInfo)
    ensures r.flags.commentsSupported == commentsSupported
    ensures FlagsAgreeExcept(p.flags, r.flags, CommentsSupported)
    ensures r.registry == p.registry
  {
    p.(flags := p.flags.(commentsSupported := commentsSupported))
  }

  /** A null prefix is stored as the empty string. */
  function SetCommentPrefix(p: PlatformInfo, commentPrefix: Option<string>): (r: PlatformInfo)
    ensures commentPrefix.Some? ==> r.flags.commentPrefix == commentPrefix
    ensures commentPrefix.None? ==> r.flags.commentPrefix == Some("")
    ensures FlagsAgreeExcept(p.flags, r.flags, CommentPrefix)
    ensures r.registry == p.registry
    ensures CommentsPresent(p) ==> CommentsPresent(r)
  {
    p.(flags := p.flags.(commentPrefix := Some(commentPrefix.GetOr(""))))
  }

  /** A null suffix is stored as the empty string. */
  function SetCommentSuffix(p: PlatformInfo, commentSuffix: Option<string>): (r: PlatformInfo)
    ensures commentSuffix.Some? ==> r.flags.commentSuffix == commentSuffix
    ensures commentSuffix.None? ==> r.flags.commentSuffix == Some("")
    ensures FlagsAgreeExcept(p.flags, r.flags, CommentSuffix)
    ensures r.registry == p.registry
    ensures CommentsPresent(p) ==> CommentsPresent(r)
  {
    p.(flags := p.flags.(commentSuffix := Some(commentSuffix.GetOr(""))))
  }

  /** Stores the delimiter as given, null included. */
  function SetSqlCommandDelimiter(p: PlatformInfo, sqlCommandDelimiter: Option<string>): (r: PlatformInfo)
    ensures r.flags.sqlCommandDelimiter == sqlCommandDelimiter
    ensures FlagsAgreeExcept(p.flags, r.flags, SqlCommandDelimiter)
    ensures r.registry == p.registry
  {
    p.(flags := p.flags.(sqlCommandDelimiter := sqlCommandDelimiter))
  }

  // ---------------------------------------------------------------------
  // Native type mappings
  // ---------------------------------------------------------------------

  /** The native type of a code, or None (Java null) when no mapping was
      added for it or it was mapped to null; a miss is not an error. */
  function GetNativeType(p: PlatformInfo, typeCode: Int32): Option<string> {
    if typeCode in p.registry.nativeTypes then p.registry.nativeTypes[typeCode] else None
  }

  /** Maps a type code to a native type, replacing any earlier mapping of that code. */
  function AddNativeTypeMapping(p: PlatformInfo, jdbcTypeCode: Int32, nativeType: Option<string>): (r: PlatformInfo)
    ensures GetNativeType(r, jdbcTypeCode) == nativeType
    ensures forall c :: c != jdbcTypeCode ==> GetNativeType(r, c) == GetNativeType(p, c)
    ensures r.registry.nativeTypes.Keys == p.registry.nativeTypes.Keys + {jdbcTypeCode}
    ensures r.flags == p.flags
    ensures r.registry.typesWithNullDefault == p.registry.typesWithNullDefault
    ensures r.registry.typesWithSize == p.registry.typesWithSize
    ensures r.registry.typesWithPrecisionAndScale == p.registry.typesWithPrecisionAndScale
  {
    p.(registry := p.registry.(nativeTypes := p.registry.nativeTypes[jdbcTypeCode := nativeType]))
  }

  /** Mapping a code twice keeps only the second native type. */
  lemma AddNativeTypeMappingLastWins(p: PlatformInfo, code: Int32, first: Option<string>, second: Option<string>)
    ensures AddNativeTypeMapping(AddNativeTypeMapping(p, code, first), code, second)
         == AddNativeTypeMapping(p, code, second)
  {
    var twice := AddNativeTypeMapping(AddNativeTypeMapping(p, code, first), code, second);
    var once := AddNativeTypeMapping(p, code, second);
    assert twice.registry.nativeTypes == once.registry.nativeTypes;
  }

  /** Whether a type-constant name resolves in `typeNames`, the public int
      constants of java.sql.Types on the running JVM. A null name never resolves. */
  predicate Resolves(jdbcTypeName: Option<string>, typeNames: map<string, Int32>) {
    jdbcTypeName.Some? && jdbcTypeName.value in typeNames
  }

  /** The outcome of inserting by name: the new record, and whether the
      "undefined jdbc type" warning was logged. */
  datatype NamedInsertion = NamedInsertion(info: PlatformInfo, warned: bool)

  /** Inserts a mapping for the code a type-constant name stands for. An
      unresolvable name (including null) changes nothing and only warns. */
  function AddNativeTypeMappingByName(
    p: PlatformInfo, jdbcTypeName: Option<string>, nativeType: Option<string>, typeNames: map<string, Int32>
  ): (r: NamedInsertion)
    ensures r.warned <==> !Resolves(jdbcTypeName, typeNames)
    ensures Resolves(jdbcTypeName, typeNames) ==>
      r.info == AddNativeTypeMapping(p, typeNames[jdbcTypeName.value], nativeType)
    ensures !Resolves(jdbcTypeName, typeNames) ==> r.info == p
  {
    match jdbcTypeName
    case Some(name) =>
      if name in typeNames then NamedInsertion(AddNativeTypeMapping(p, typeNames[name], nativeType), false)
      else NamedInsertion(p, true)
    case None => NamedInsertion(p, true)
  }

  /** A resolved name makes its code map to the native type; every other
      lookup, and every lookup after an unresolved name, is as before. */
  lemma NamedInsertionLookup(
    p: PlatformInfo, jdbcTypeName: Option<string>, nativeType: Option<string>, typeNames: map<string, Int32>, c: Int32
  )
    ensures var r := AddNativeTypeMappingByName(p, jdbcTypeName, nativeType, typeNames).info;
      GetNativeType(r, c) ==
        if Resolves(jdbcTypeName, typeNames) && typeNames[jdbcTypeName.value] == c then nativeType
        else GetNativeType(p, c)
  {
  }

  // ---------------------------------------------------------------------
  // Classification sets
  // ---------------------------------------------------------------------

  /** The three independent classification sets. */
  datatype Classification = NullDefault | Size | PrecisionAndScale

  function Members(reg: Registry, k: Classification): set<Int32> {
    match k
    case NullDefault => reg.typesWithNullDefault
    case Size => reg.typesWithSize
    case PrecisionAndScale => reg.typesWithPrecisionAndScale
  }

  /** Membership query shared by hasNullDefault, hasSize and hasPrecisionAndScale. */
  predicate Has(p: PlatformInfo, k: Classification, code: Int32) {
    code in Members(p.registry, k)
  }

  /** Whether a column of this type takes null as its default value. */
  predicate HasNullDefault(p: PlatformInfo, sqlTypeCode: Int32) {
    Has(p, NullDefault, sqlTypeCode)
  }

  /** Whether a column of this type carries a size. */
  predicate HasSize(p: PlatformInfo, sqlTypeCode: Int32) {
    Has(p, Size, sqlTypeCode)
  }

  /** Whether a column of this type carries a precision and a scale. */
  predicate HasPrecisionAndScale(p: PlatformInfo, sqlTypeCode: Int32) {
    Has(p, PrecisionAndScale, sqlTypeCode)
  }

  /** Adds `code` to set `k` when `member` holds and removes it otherwise;
      shared by the three setHas* mutators. */
  function SetHas(p: PlatformInfo, k: Classification, code: Int32, member: bool): (r: PlatformInfo)
    ensures Has(r, k, code) == member
    ensures forall c :: c != code ==> Has(r, k, c) == Has(p, k, c)
    ensures forall j :: j != k ==> Members(r.registry, j) == Members(p.registry, j)
    ensures r.registry.nativeTypes == p.registry.nativeTypes
    ensures r.flags == p.flags
  {
    var s := Members(p.registry, k);
    var s' := if member then s + {code} else s - {code};
    match k
    case NullDefault => p.(registry := p.registry.(typesWithNullDefault := s'))
    case Size => p.(registry := p.registry.(typesWithSize := s'))
    case PrecisionAndScale => p.(registry := p.registry.(typesWithPrecisionAndScale := s'))
  }

  function SetHasNullDefault(p: PlatformInfo, sqlTypeCode: Int32, hasNullDefault: bool): (r: PlatformInfo)
    ensures HasNullDefault(r, sqlTypeCode) == hasNullDefault
    ensures forall c :: c != sqlTypeCode ==> HasNullDefault(r, c) == HasNullDefault(p, c)
    ensures r.registry.typesWithSize == p.registry.typesWithSize
    ensures r.registry.typesWithPrecisionAndScale == p.registry.typesWithPrecisionAndScale
    ensures r.registry.nativeTypes == p.registry.nativeTypes
    ensures r.flags == p.flags
  {
    var r := SetHas(p, NullDefault, sqlTypeCode, hasNullDefault);
    assert Members(r.registry, Size) == Members(p.registry, Size);
    assert Members(r.registry, PrecisionAndScale) == Members(p.registry, PrecisionAndScale);
    r
  }

  function SetHasSize(p: PlatformInfo, sqlTypeCode: Int32, hasSize: bool): (r: PlatformInfo)
    ensures HasSize(r, sqlTypeCode) == hasSize
    ensures forall c :: c != sqlTypeCode ==> HasSize(r, c) == HasSize(p, c)
    ensures r.registry.typesWithNullDefault == p.registry.typesWithNullDefault
    ensures r.registry.typesWithPrecisionAndScale == p.registry.typesWithPrecisionAndScale
    ensures r.registry.nativeTypes == p.registry.nativeTypes
    ensures r.flags == p.flags
  {
    var r := SetHas(p, Size, sqlTypeCode, hasSize);
    assert Members(r.registry, NullDefault) == Members(p.registry, NullDefault);
    assert Members(r.registry, PrecisionAndScale) == Members(p.registry, PrecisionAndScale);
    r
  }

  function SetHasPrecisionAndScale(p: PlatformInfo, sqlTypeCode: Int32, hasPrecisionAndScale: bool): (r: PlatformInfo)
    ensures HasPrecisionAndScale(r, sqlTypeCode) == hasPrecisionAndScale
    ensures forall c :: c != sqlTypeCode ==> HasPrecisionAndScale(r, c) == HasPrecisionAndScale(p, c)
    ensures r.registry.typesWithNullDefault == p.registry.typesWithNullDefault
    ensures r.registry.typesWithSize == p.registry.typesWithSize
    ensures r.registry.nativeTypes == p.registry.nativeTypes
    ensures r.flags == p.flags
  {
    var r := SetHas(p, PrecisionAndScale, sqlTypeCode, hasPrecisionAndScale);
    assert Members(r.registry, NullDefault) == Members(p.registry, NullDefault);
    assert Members(r.registry, Size) == Members(p.registry, Size);
    r
  }

  /** Repeating a classification call with the same arguments changes nothing more. */
  lemma SetHasIdempotent(p: PlatformInfo, k: Classification, code: Int32, member: bool)
    ensures SetHas(SetHas(p, k, code, member), k, code, member) == SetHas(p, k, code, member)
  {
    SetHasLastWins(p, k, code, member, member);
  }

  /** Of two classification calls for the same code and set, only the second counts. */
  lemma SetHasLastWins(p: PlatformInfo, k: Classification, code: Int32, first: bool, second: bool)
    ensures SetHas(SetHas(p, k, code, first), k, code, second) == SetHas(p, k, code, second)
  {
    var twice := SetHas(SetHas(p, k, code, first), k, code, second);
    var once := SetHas(p, k, code, second);
    assert Members(twice.registry, k) == Members(once.registry, k);
  }

  /** Adding a code and then removing it leaves it out of the set, whether or
      not it was a member to begin with. */
  lemma SetHasAddThenRemove(p: PlatformInfo, k: Classification, code: Int32)
    ensures !Has(SetHas(SetHas(p, k, code, true), k, code, false), k, code)
    ensures SetHas(SetHas(p, k, code, true), k, code, false) == SetHas(p, k, code, false)
  {
    SetHasLastWins(p, k, code, true, false);
  }
}
