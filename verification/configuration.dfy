/**
 A dialect is configured by constructing a `PlatformInfo` and then calling
 its mutators in some order. This module models such a sequence of calls as
 a script of operations and states what any script leaves behind: each
 getter returns the value of the last call that wrote it, or the value
 before the script when none did.
 */
module Configuration {
  import opened Wrappers
  import opened JdbcTypes
  import P = Platform

  /** A call to one of the fifteen flag setters, named after the Java method. */
  datatype FlagCall =
    | SetRequiringNullAsDefaultValue(b: bool)
    | SetPrimaryKeyEmbedded(b: bool)
    | SetForeignKeysEmbedded(b: bool)
    | SetIndicesEmbedded(b: bool)
    | SetEmbeddedForeignKeysNamed(b: bool)
    | SetUseAlterTableForDrop(b: bool)
    | SetMaxIdentifierLength(n: Int32)
    | SetCaseSensitive(b: bool)
    | SetUseDelimitedIdentifiers(b: bool)
    | SetDelimiterToken(s: Option<string>)
    | SetValueQuoteToken(s: Option<string>)
    | SetCommentsSupported(b: bool)
    | SetCommentPrefix(s: Option<string>)
    | SetCommentSuffix(s: Option<string>)
    | SetSqlCommandDelimiter(s: Option<string>)

  /** One call to a mutator of `PlatformInfo`. `SetHas(k, code, b)` stands for
      `setHasNullDefault`, `setHasSize` or `setHasPrecisionAndScale`, by `k`. */
  datatype Op =
    | SetFlag(call: FlagCall)
    | AddNativeTypeMapping(code: Int32, nativeType: Option<string>)
    | AddNativeTypeMappingByName(name: Option<string>, nativeType: Option<string>)
    | SetHas(kind: P.Classification, code: Int32, member: bool)

  // ---------------------------------------------------------------------
  // What each call writes, stated independently of the functions in Platform
  // ---------------------------------------------------------------------

  datatype FlagWrite = FlagWrite(flag: P.Flag, value: P.Value)

  /** The flag a setter call writes and the value its getter returns afterwards. */
  function Written(call: FlagCall): FlagWrite {
    match call
    case SetRequiringNullAsDefaultValue(b) => FlagWrite(P.RequiringNullAsDefaultValue, P.BoolValue(b))
    case SetPrimaryKeyEmbedded(b) => FlagWrite(P.PrimaryKeyEmbedded, P.BoolValue(b))
    case SetForeignKeysEmbedded(b) => FlagWrite(P.ForeignKeysEmbedded, P.BoolValue(b))
    case SetIndicesEmbedded(b) => FlagWrite(P.IndicesEmbedded, P.BoolValue(b))
    case SetEmbeddedForeignKeysNamed(b) => FlagWrite(P.EmbeddedForeignKeysNamed, P.BoolValue(b))
    case SetUseAlterTableForDrop(b) => FlagWrite(P.UseAlterTableForDrop, P.BoolValue(b))
    case SetMaxIdentifierLength(n) => FlagWrite(P.MaxIdentifierLength, P.IntValue(n))
    case SetCaseSensitive(b) => FlagWrite(P.CaseSensitive, P.BoolValue(b))
    case SetUseDelimitedIdentifiers(b) => FlagWrite(P.UseDelimitedIdentifiers, P.BoolValue(b))
    case SetDelimiterToken(s) => FlagWrite(P.DelimiterToken, P.TextValue(s))
    case SetValueQuoteToken(s) => FlagWrite(P.ValueQuoteToken, P.TextValue(s))
    case SetCommentsSupported(b) => FlagWrite(P.CommentsSupported, P.BoolValue(b))
    case SetCommentPrefix(s) => FlagWrite(P.CommentPrefix, P.TextValue(NonNull(s)))
    case SetCommentSuffix(s) => FlagWrite(P.CommentSuffix, P.TextValue(NonNull(s)))
    case SetSqlCommandDelimiter(s) => FlagWrite(P.SqlCommandDelimiter, P.TextValue(s))
  }

  /** The comment setters' coercion: null becomes the empty string. */
  function NonNull(s: Option<string>): Option<string> {
    if s == None then Some("") else s
  }

  function WrittenFlag(op: Op): Option<FlagWrite> {
    if op.SetFlag? then Some(Written(op.call)) else None
  }

  datatype MappingWrite = MappingWrite(code: Int32, nativeType: Option<string>)

  /** The mapping a call adds; a by-name call adds one only if its name resolves. */
  function WrittenMapping(op: Op, typeNames: map<string, Int32>): Option<MappingWrite> {
    match op
    case AddNativeTypeMapping(code, nativeType) => Some(MappingWrite(code, nativeType))
    case AddNativeTypeMappingByName(name, nativeType) =>
      if name.Some? && name.value in typeNames then Some(MappingWrite(typeNames[name.value], nativeType))
      else None
    case _ => None
  }

  datatype ClassWrite = ClassWrite(kind: P.Classification, code: Int32, member: bool)

  /** The classification a call sets for a code. */
  function WrittenClass(op: Op): Option<ClassWrite> {
    match op
    case SetHas(kind, code, member) => Some(ClassWrite(kind, code, member))
    case _ => None
  }

  // ---------------------------------------------------------------------
  // Running a script
  // ---------------------------------------------------------------------

  /** Performs one flag setter call. */
  function Apply(p: P.PlatformInfo, call: FlagCall): P.PlatformInfo {
    match call
    case SetRequiringNullAsDefaultValue(b) => P.SetRequiringNullAsDefaultValue(p, b)
    case SetPrimaryKeyEmbedded(b) => P.SetPrimaryKeyEmbedded(p, b)
    case SetForeignKeysEmbedded(b) => P.SetForeignKeysEmbedded(p, b)
    case SetIndicesEmbedded(b) => P.SetIndicesEmbedded(p, b)
    case SetEmbeddedForeignKeysNamed(b) => P.SetEmbeddedForeignKeysNamed(p, b)
    case SetUseAlterTableForDrop(b) => P.SetUseAlterTableForDrop(p, b)
    case SetMaxIdentifierLength(n) => P.SetMaxIdentifierLength(p, n)
    case SetCaseSensitive(b) => P.SetCaseSensitive(p, b)
    case SetUseDelimitedIdentifiers(b) => P.SetUseDelimitedIdentifiers(p, b)
    case SetDelimiterToken(s) => P.SetDelimiterToken(p, s)
    case SetValueQuoteToken(s) => P.SetValueQuoteToken(p, s)
    case SetCommentsSupported(b) => P.SetCommentsSupported(p, b)
    case SetCommentPrefix(s) => P.SetCommentPrefix(p, s)
    case SetCommentSuffix(s) => P.SetCommentSuffix(p, s)
    case SetSqlCommandDelimiter(s) => P.SetSqlCommandDelimiter(p, s)
  }

  /** A flag setter call makes its getter return the value it writes. */
  lemma ApplyWrites(p: P.PlatformInfo, call: FlagCall)
    ensures P.FlagValue(Apply(p, call).flags, Written(call).flag) == Written(call).value
  {
  }

  /** A flag setter call changes no other flag and not the registry. */
  lemma ApplyKeepsOthers(p: P.PlatformInfo, call: FlagCall)
    ensures P.FlagsAgreeExcept(p.flags, Apply(p, call).flags, Written(call).flag)
    ensures Apply(p, call).registry == p.registry
  {
  }

  /** Performs one call. `typeNames` stands for the constants of
      java.sql.Types that a by-name call resolves against. */
  function Step(p: P.PlatformInfo, op: Op, typeNames: map<string, Int32>): P.PlatformInfo {
    match op
    case SetFlag(call) => Apply(p, call)
    case AddNativeTypeMapping(code, nativeType) => P.AddNativeTypeMapping(p, code, nativeType)
    case AddNativeTypeMappingByName(name, nativeType) => P.AddNativeTypeMappingByName(p, name, nativeType, typeNames).info
    case SetHas(kind, code, member) => P.SetHas(p, kind, code, member)
  }

  /** A flag setter leaves the registry alone; every other call leaves the flags alone. */
  lemma StepFrame(p: P.PlatformInfo, op: Op, typeNames: map<string, Int32>)
    ensures op.SetFlag? ==> Step(p, op, typeNames).registry == p.registry
    ensures !op.SetFlag? ==> Step(p, op, typeNames).flags == p.flags
  {
    if op.SetFlag? {
      ApplyKeepsOthers(p, op.call);
    }
  }

  /** What a flag getter returns after one call. */
  lemma StepFlagValue(p: P.PlatformInfo, op: Op, typeNames: map<string, Int32>, k: P.Flag)
    ensures P.FlagValue(Step(p, op, typeNames).flags, k) ==
      (if WrittenFlag(op).Some? && WrittenFlag(op).value.flag == k then WrittenFlag(op).value.value
       else P.FlagValue(p.flags, k))
  {
    match op
    case SetFlag(call) =>
      ApplyWrites(p, call);
      ApplyKeepsOthers(p, call);
    case _ =>
      StepFrame(p, op, typeNames);
  }

  /** What a native-type lookup returns after one call. */
  lemma StepNativeType(p: P.PlatformInfo, op: Op, typeNames: map<string, Int32>, c: Int32)
    ensures P.GetNativeType(Step(p, op, typeNames), c) ==
      (if WrittenMapping(op, typeNames).Some? && WrittenMapping(op, typeNames).value.code == c
       then WrittenMapping(op, typeNames).value.nativeType
       else P.GetNativeType(p, c))
  {
    match op
    case SetFlag(call) =>
      ApplyKeepsOthers(p, call);
    case AddNativeTypeMapping(code, nativeType) =>
    case AddNativeTypeMappingByName(name, nativeType) =>
    case SetHas(kind, code, member) =>
  }

  /** What a membership query returns after one call. */
  lemma StepMembership(p: P.PlatformInfo, op: Op, typeNames: map<string, Int32>, k: P.Classification, c: Int32)
    ensures P.Has(Step(p, op, typeNames), k, c) ==
      (if WrittenClass(op).Some? && WrittenClass(op).value.kind == k && WrittenClass(op).value.code == c
       then WrittenClass(op).value.member
       else P.Has(p, k, c))
  {
    match op
    case SetFlag(call) =>
      ApplyKeepsOthers(p, call);
    case AddNativeTypeMapping(code, nativeType) =>
      assert P.Members(Step(p, op, typeNames).registry, k) == P.Members(p.registry, k);
    case AddNativeTypeMappingByName(name, nativeType) =>
      assert P.Members(Step(p, op, typeNames).registry, k) == P.Members(p.registry, k);
    case SetHas(kind, code, member) =>
  }

  /** Performs the calls of `ops` in order. */
  function Run(p: P.PlatformInfo, ops: seq<Op>, typeNames: map<string, Int32>): P.PlatformInfo
    decreases |ops|
  {
    if |ops| == 0 then p
    else Step(Run(p, ops[..|ops| - 1], typeNames), ops[|ops| - 1], typeNames)
  }

  // ---------------------------------------------------------------------
  // Last write wins
  // ---------------------------------------------------------------------

  /** The value the last call of `ops` that writes flag `k` leaves in it, or `initial`. */
  function LastFlagValue(ops: seq<Op>, k: P.Flag, initial: P.Value): P.Value
    decreases |ops|
  {
    if |ops| == 0 then initial
    else
      var w := WrittenFlag(ops[|ops| - 1]);
      if w.Some? && w.value.flag == k then w.value.value
      else LastFlagValue(ops[..|ops| - 1], k, initial)
  }

  /** The native type of the last call of `ops` that maps `c`, or `initial`. */
  function LastNativeType(ops: seq<Op>, typeNames: map<string, Int32>, c: Int32, initial: Option<string>): Option<string>
    decreases |ops|
  {
    if |ops| == 0 then initial
    else
      var w := WrittenMapping(ops[|ops| - 1], typeNames);
      if w.Some? && w.value.code == c then w.value.nativeType
      else LastNativeType(ops[..|ops| - 1], typeNames, c, initial)
  }

  /** The membership the last call of `ops` that classifies `c` in set `k` sets, or `initial`. */
  function LastMembership(ops: seq<Op>, k: P.Classification, c: Int32, initial: bool): bool
    decreases |ops|
  {
    if |ops| == 0 then initial
    else
      var w := WrittenClass(ops[|ops| - 1]);
      if w.Some? && w.value.kind == k && w.value.code == c then w.value.member
      else LastMembership(ops[..|ops| - 1], k, c, initial)
  }

  /** Every flag getter returns the value of the last setter call for it. */
  lemma {:induction false} RunFlagValue(p: P.PlatformInfo, ops: seq<Op>, typeNames: map<string, Int32>, k: P.Flag)
    ensures P.FlagValue(Run(p, ops, typeNames).flags, k) == LastFlagValue(ops, k, P.FlagValue(p.flags, k))
    decreases |ops|
  {
    if |ops| > 0 {
      RunFlagValue(p, ops[..|ops| - 1], typeNames, k);
      StepFlagValue(Run(p, ops[..|ops| - 1], typeNames), ops[|ops| - 1], typeNames, k);
    }
  }

  /** Every native-type lookup returns the type of the last mapping added for
      that code, by number or by a name that resolves to it. */
  lemma {:induction false} RunNativeType(p: P.PlatformInfo, ops: seq<Op>, typeNames: map<string, Int32>, c: Int32)
    ensures P.GetNativeType(Run(p, ops, typeNames), c) == LastNativeType(ops, typeNames, c, P.GetNativeType(p, c))
    decreases |ops|
  {
    if |ops| > 0 {
      RunNativeType(p, ops[..|ops| - 1], typeNames, c);
      StepNativeType(Run(p, ops[..|ops| - 1], typeNames), ops[|ops| - 1], typeNames, c);
    }
  }

  /** Every membership query returns what the last classification call for
      that code and set said. */
  lemma {:induction false} RunMembership(
    p: P.PlatformInfo, ops: seq<Op>, typeNames: map<string, Int32>, k: P.Classification, c: Int32
  )
    ensures P.Has(Run(p, ops, typeNames), k, c) == LastMembership(ops, k, c, P.Has(p, k, c))
    decreases |ops|
  {
    if |ops| > 0 {
      RunMembership(p, ops[..|ops| - 1], typeNames, k, c);
      StepMembership(Run(p, ops[..|ops| - 1], typeNames), ops[|ops| - 1], typeNames, k, c);
    }
  }

  /** `op` maps the code `c` to a native type. */
  predicate MapsCode(op: Op, typeNames: map<string, Int32>, c: Int32) {
    WrittenMapping(op, typeNames).Some? && WrittenMapping(op, typeNames).value.code == c
  }

  /** `op` adds `c` to, or removes it from, the set of kind `k`. */
  predicate ClassifiesCode(op: Op, k: P.Classification, c: Int32) {
    WrittenClass(op).Some? && WrittenClass(op).value.kind == k && WrittenClass(op).value.code == c
  }

  /** From a freshly constructed record: a code the script never maps has no
      native type, and a code the script never puts in or takes out of one
      set keeps its seed membership of that set, whatever else it does. */
  lemma {:induction false} RunFromNewUntouchedCode(ops: seq<Op>, typeNames: map<string, Int32>, c: Int32)
    ensures (forall i :: 0 <= i < |ops| ==> !MapsCode(ops[i], typeNames, c)) ==>
      P.GetNativeType(Run(P.New(), ops, typeNames), c) == None
    ensures (forall i :: 0 <= i < |ops| ==> !ClassifiesCode(ops[i], P.Size, c)) ==>
      (P.HasSize(Run(P.New(), ops, typeNames), c) <==> c in {CHAR, VARCHAR, BINARY, VARBINARY})
    ensures (forall i :: 0 <= i < |ops| ==> !ClassifiesCode(ops[i], P.PrecisionAndScale, c)) ==>
      (P.HasPrecisionAndScale(Run(P.New(), ops, typeNames), c) <==> c in {DECIMAL, NUMERIC})
    ensures (forall i :: 0 <= i < |ops| ==> !ClassifiesCode(ops[i], P.NullDefault, c)) ==>
      (P.HasNullDefault(Run(P.New(), ops, typeNames), c) <==>
       c in {CHAR, VARCHAR, LONGVARCHAR, CLOB, BINARY, VARBINARY, LONGVARBINARY, BLOB})
  {
    if forall i :: 0 <= i < |ops| ==> !MapsCode(ops[i], typeNames, c) {
      RunNativeType(P.New(), ops, typeNames, c);
      UntouchedNativeType(ops, typeNames, c, None);
    }
    forall k: P.Classification | forall i :: 0 <= i < |ops| ==> !ClassifiesCode(ops[i], k, c)
      ensures P.Has(Run(P.New(), ops, typeNames), k, c) == P.Has(P.New(), k, c)
    {
      RunMembership(P.New(), ops, typeNames, k, c);
      UntouchedMembership(ops, k, c, P.Has(P.New(), k, c));
    }
    assert P.HasNullDefault(P.New(), c) == P.Has(P.New(), P.NullDefault, c);
    assert P.HasSize(P.New(), c) == P.Has(P.New(), P.Size, c);
    assert P.HasPrecisionAndScale(P.New(), c) == P.Has(P.New(), P.PrecisionAndScale, c);
  }

  lemma {:induction false} UntouchedNativeType(ops: seq<Op>, typeNames: map<string, Int32>, c: Int32, initial: Option<string>)
    requires forall i :: 0 <= i < |ops| ==> !MapsCode(ops[i], typeNames, c)
    ensures LastNativeType(ops, typeNames, c, initial) == initial
    decreases |ops|
  {
    if |ops| > 0 {
      UntouchedNativeType(ops[..|ops| - 1], typeNames, c, initial);
    }
  }

  lemma {:induction false} UntouchedMembership(ops: seq<Op>, k: P.Classification, c: Int32, initial: bool)
    requires forall i :: 0 <= i < |ops| ==> !ClassifiesCode(ops[i], k, c)
    ensures LastMembership(ops, k, c, initial) == initial
    decreases |ops|
  {
    if |ops| > 0 {
      UntouchedMembership(ops[..|ops| - 1], k, c, initial);
    }
  }

  // ---------------------------------------------------------------------
  // The comment prefix and suffix are never null
  // ---------------------------------------------------------------------

  /** No script makes the comment prefix or suffix null, and a freshly
      constructed record starts with both present. */
  lemma {:induction false} RunKeepsCommentsPresent(p: P.PlatformInfo, ops: seq<Op>, typeNames: map<string, Int32>)
    requires P.CommentsPresent(p)
    ensures P.CommentsPresent(Run(p, ops, typeNames))
    decreases |ops|
  {
    if |ops| > 0 {
      var before := Run(p, ops[..|ops| - 1], typeNames);
      RunKeepsCommentsPresent(p, ops[..|ops| - 1], typeNames);
      StepFlagValue(before, ops[|ops| - 1], typeNames, P.CommentPrefix);
      StepFlagValue(before, ops[|ops| - 1], typeNames, P.CommentSuffix);
    }
  }

  // ---------------------------------------------------------------------
  // Independence of the settings
  // ---------------------------------------------------------------------

  /** Two setter calls for different flags can be made in either order. */
  lemma FlagWritesCommute(p: P.PlatformInfo, a: FlagCall, b: FlagCall)
    requires Written(a).flag != Written(b).flag
    ensures Apply(Apply(p, a), b) == Apply(Apply(p, b), a)
  {
    var ab := Apply(Apply(p, a), b);
    var ba := Apply(Apply(p, b), a);
    ApplyWrites(p, a);
    ApplyWrites(p, b);
    ApplyWrites(Apply(p, a), b);
    ApplyWrites(Apply(p, b), a);
    ApplyKeepsOthers(p, a);
    ApplyKeepsOthers(p, b);
    ApplyKeepsOthers(Apply(p, a), b);
    ApplyKeepsOthers(Apply(p, b), a);
    P.FlagsExtensional(ab.flags, ba.flags);
  }

  /** Of two setter calls for the same flag, only the second has an effect. */
  lemma FlagWriteOverwritten(p: P.PlatformInfo, a: FlagCall, b: FlagCall)
    requires Written(a).flag == Written(b).flag
    ensures Apply(Apply(p, a), b) == Apply(p, b)
  {
    var ab := Apply(Apply(p, a), b);
    var b1 := Apply(p, b);
    ApplyWrites(Apply(p, a), b);
    ApplyWrites(p, b);
    ApplyKeepsOthers(p, a);
    ApplyKeepsOthers(p, b);
    ApplyKeepsOthers(Apply(p, a), b);
    P.FlagsExtensional(ab.flags, b1.flags);
  }

  // ---------------------------------------------------------------------
  // Insertion by name is insertion by number, or nothing
  // ---------------------------------------------------------------------

  /** Replaces each by-name insertion with the insertion by the code its name
      resolves to, and drops the ones whose name does not resolve. */
  function Resolve(ops: seq<Op>, typeNames: map<string, Int32>): (r: seq<Op>)
    ensures forall i :: 0 <= i < |r| ==> !r[i].AddNativeTypeMappingByName?
    decreases |ops|
  {
    if |ops| == 0 then []
    else
      var prefix := Resolve(ops[..|ops| - 1], typeNames);
      match ops[|ops| - 1]
      case AddNativeTypeMappingByName(name, nativeType) =>
        if P.Resolves(name, typeNames) then prefix + [AddNativeTypeMapping(typeNames[name.value], nativeType)]
        else prefix
      case op => prefix + [op]
  }

  lemma RunSnoc(p: P.PlatformInfo, ops: seq<Op>, op: Op, typeNames: map<string, Int32>)
    ensures Run(p, ops + [op], typeNames) == Step(Run(p, ops, typeNames), op, typeNames)
  {
    assert (ops + [op])[..|ops|] == ops;
  }

  /** Running a script is the same as running it with every by-name insertion
      resolved in advance: a resolved name acts exactly as its code, an
      unresolved one as no call at all. */
  lemma {:induction false} RunResolved(p: P.PlatformInfo, ops: seq<Op>, typeNames: map<string, Int32>)
    ensures Run(p, ops, typeNames) == Run(p, Resolve(ops, typeNames), typeNames)
    decreases |ops|
  {
    if |ops| > 0 {
      var init := ops[..|ops| - 1];
      var last := ops[|ops| - 1];
      var prefix := Resolve(init, typeNames);
      var before := Run(p, init, typeNames);
      RunResolved(p, init, typeNames);
      assert before == Run(p, prefix, typeNames);
      assert Run(p, ops, typeNames) == Step(before, last, typeNames);
      match last
      case AddNativeTypeMappingByName(name, nativeType) =>
        if name.Some? && name.value in typeNames {
          var byCode := AddNativeTypeMapping(typeNames[name.value], nativeType);
          assert Resolve(ops, typeNames) == prefix + [byCode];
          assert Step(before, last, typeNames) == Step(before, byCode, typeNames);
          RunSnoc(p, prefix, byCode, typeNames);
        } else {
          assert Resolve(ops, typeNames) == prefix;
          assert Step(before, last, typeNames) == before;
        }
      case _ =>
        assert Resolve(ops, typeNames) == prefix + [last];
        RunSnoc(p, prefix, last, typeNames);
    }
  }

  /** Once resolved, a script no longer depends on which type names resolve. */
  lemma {:induction false} ResolvedIgnoresTypeNames(p: P.PlatformInfo, ops: seq<Op>, typeNames: map<string, Int32>, other: map<string, Int32>)
    requires forall i :: 0 <= i < |ops| ==> !ops[i].AddNativeTypeMappingByName?
    ensures Run(p, ops, typeNames) == Run(p, ops, other)
    decreases |ops|
  {
    if |ops| > 0 {
      ResolvedIgnoresTypeNames(p, ops[..|ops| - 1], typeNames, other);
    }
  }
}
