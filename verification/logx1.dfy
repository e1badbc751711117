/**
 * The logging façade over zap: preset selection by mode string, the
 * benign-error filter of `Sync`, carrying a logger in a context, and the
 * helpers that attach fields to a logger.
 */
module Logx1 {
  import opened Nilable
  import opened Bytes
  import opened Normalize
  import opened Errors
  import opened Zap
  import opened Context

  // ---------------------------------------------------------------------
  // New

  /** The two zap presets `New` can build. */
  datatype Preset = Production | Development

  /** "prod" */
  function ProdWord(): GoString {
    [0x70, 0x72, 0x6F, 0x64]
  }

  /** "production" */
  function ProductionWord(): GoString {
    [0x70, 0x72, 0x6F, 0x64, 0x75, 0x63, 0x74, 0x69, 0x6F, 0x6E]
  }

  /**
   * a spells the lower-case ASCII word w, each letter in either case: the
   * case-insensitive match the mode string is documented to get.
   */
  predicate EqualFold(a: GoString, w: GoString) {
    && |a| == |w|
    && forall i :: 0 <= i < |a| ==> a[i] == w[i] || a[i] as int == w[i] as int - 32
  }

  predicate AllLowerLetters(w: GoString) {
    forall i :: 0 <= i < |w| ==> IsLowerLetter(w[i])
  }

  /** Normalizing gives a lower-case word exactly when the input spells it in any case mix. */
  lemma NormalizedIsWordIff(a: GoString, w: GoString)
    requires AllLowerLetters(w)
    ensures Normalized(a) == w <==> EqualFold(a, w)
  {
    NormalizedPointwise(a);
    if EqualFold(a, w) {
      assert AllAscii(a);
      NormalizedAscii(a);
      assert forall i :: 0 <= i < |a| ==> Normalized(a)[i] == w[i];
    }
    if Normalized(a) == w {
      forall i | 0 <= i < |a|
        ensures a[i] == w[i] || a[i] as int == w[i] as int - 32
      {
        assert Normalized(a)[i] == w[i];
      }
    }
  }

  lemma ModeWordsLower()
    ensures AllLowerLetters(ProdWord()) && AllLowerLetters(ProductionWord())
  {
  }

  /**
   * The preset `New(mode)` builds; the constructors themselves are zap's.
   * It is production exactly when the mode is "prod" or "production" with
   * any mix of upper- and lower-case ASCII letters.
   */
  function New(mode: GoString): (p: Preset)
    ensures p == Production <==>
      EqualFold(mode, ProdWord()) || EqualFold(mode, ProductionWord())
  {
    ModeWordsLower();
    NormalizedIsWordIff(mode, ProdWord());
    NormalizedIsWordIff(mode, ProductionWord());
    var n := Normalized(mode);
    if n == ProdWord() || n == ProductionWord() then Production else Development
  }

  /** A mode with any byte that is not an ASCII letter (a space, a digit, 'é') selects development. */
  lemma NewNonLetterIsDevelopment(mode: GoString, i: nat)
    requires i < |mode| && !IsLetter(mode[i])
    ensures New(mode) == Development
  {
    ModeWordsLower();
  }

  /** "PROD" selects production. */
  lemma NewExampleUpper()
    ensures New([0x50, 0x52, 0x4F, 0x44]) == Production
  {
  }

  /** "prod " and "" select development. */
  lemma NewExamplesDevelopment()
    ensures New([0x70, 0x72, 0x6F, 0x64, 0x20]) == Development
    ensures New([]) == Development
  {
    NewNonLetterIsDevelopment([0x70, 0x72, 0x6F, 0x64, 0x20], 4);
  }

  // ---------------------------------------------------------------------
  // Sync

  /**
   * `Sync(l)`. `flushed` is what `l.Sync()` reports; it is only consulted
   * when l is non-nil.
   */
  function Sync(l: Option<Logger>, flushed: Option<Error>): (r: Option<Error>)
    ensures r.Some? ==> l.Some? && r == flushed
  {
    if l.None? then None
    else match flushed
      case None => None
      case Some(err) =>
        if Is(err, EINVAL) || Is(err, ENOTTY) then None
        else match AsPathError(err)
          case Some(perr) =>
            if Is(perr, EINVAL) || Is(perr, ENOTTY) then None else flushed
          case None => flushed
  }

  /** The spurious errors of syncing a terminal or pipe: EINVAL or ENOTTY anywhere in the chain. */
  predicate Benign(e: Error) {
    Errno(EINVAL) in Chain(e) || Errno(ENOTTY) in Chain(e)
  }

  /**
   * `Sync` reports nothing when the logger is nil, when the flush succeeds,
   * or when the failure is benign; any other failure comes back unchanged.
   */
  lemma SyncFilters(l: Option<Logger>, flushed: Option<Error>)
    ensures Sync(l, flushed).None? <==> l.None? || flushed.None? || Benign(flushed.value)
    ensures Sync(l, flushed).Some? ==> Sync(l, flushed) == flushed
  {
    if l.Some? && flushed.Some? {
      var err := flushed.value;
      if AsPathError(err).Some? {
        AsPathErrorOnChain(err, EINVAL);
        AsPathErrorOnChain(err, ENOTTY);
      }
    }
  }

  /** `Sync` without its `*os.PathError` branch. */
  function SyncChainOnly(l: Option<Logger>, flushed: Option<Error>): (r: Option<Error>)
    ensures r.Some? ==> l.Some? && r == flushed
  {
    if l.None? then None
    else match flushed
      case None => None
      case Some(err) => if Is(err, EINVAL) || Is(err, ENOTTY) then None else flushed
  }

  /**
   * The `*os.PathError` branch filters nothing more: `errors.Is` already
   * unwraps a path error, so its errno is found by the first test.
   */
  lemma SyncPathErrorBranchRedundant(l: Option<Logger>, flushed: Option<Error>)
    ensures Sync(l, flushed) == SyncChainOnly(l, flushed)
  {
    if l.Some? && flushed.Some? && AsPathError(flushed.value).Some? {
      AsPathErrorOnChain(flushed.value, EINVAL);
      AsPathErrorOnChain(flushed.value, ENOTTY);
    }
  }

  /** ENOTTY under a path error under a wrapper is dropped; a path error around ENOENT (2) is kept. */
  lemma SyncExamples()
    ensures Sync(Some(Global), Some(Wrapped([], PathError([], [], Errno(ENOTTY))))) == None
    ensures Sync(Some(Global), Some(PathError([], [], Errno(2)))) == Some(PathError([], [], Errno(2)))
    ensures Sync(None, Some(Plain([]))) == None
  {
  }

  /**
   * EINVAL or ENOTTY anywhere on the chain silences `Sync`, whatever wraps
   * it. A wrapper around a benign errno is a case the comment on `Sync`
   * does not cover; on a single chain the errno itself wraps nothing.
   */
  lemma SyncDropsWhateverWrapsBenign(l: Logger, e: Error, code: nat)
    requires code == EINVAL || code == ENOTTY
    requires Errno(code) in Chain(e)
    ensures Sync(Some(l), Some(e)) == None
  {
    SyncFilters(Some(l), Some(e));
  }

  // ---------------------------------------------------------------------
  // Context helpers

  /** `WithContext(ctx, logger)`: a nil ctx is replaced by `context.Background()`. */
  function WithContext(ctx: Option<Context>, logger: Option<Logger>): (r: Context)
    ensures Lookup(r, LoggerKey) == Some(LoggerValue(logger))
    ensures forall k :: k != LoggerKey ==>
      Lookup(r, k) == if ctx.Some? then Lookup(ctx.value, k) else None
  {
    WithValue(ctx.ValueOr(Background), LoggerKey, LoggerValue(logger))
  }

  /** ctx is non-nil and holds the non-nil logger l under the façade's key. */
  predicate Holds(ctx: Option<Context>, l: Logger) {
    ctx.Some? && Lookup(ctx.value, LoggerKey) == Some(LoggerValue(Some(l)))
  }

  /** `FromContext(ctx)`: the stored logger if there is a non-nil one, else the global logger. */
  function FromContext(ctx: Option<Context>): (l: Logger)
    ensures Holds(ctx, l) || (l == Global && forall s :: !Holds(ctx, s))
  {
    if ctx.Some? then
      match Lookup(ctx.value, LoggerKey)
      case Some(LoggerValue(Some(stored))) => stored
      case _ => Global
    else Global
  }

  /** What `WithContext` stores, `FromContext` gives back, on a nil context too. */
  lemma ContextRoundTrip(ctx: Option<Context>, l: Logger)
    ensures FromContext(Some(WithContext(ctx, Some(l)))) == l
  {
  }

  /**
   * Storing a nil logger hides any logger stored further out: `FromContext`
   * sees the nil one first and falls back to the global logger.
   */
  lemma NilLoggerMasks(ctx: Option<Context>)
    ensures FromContext(Some(WithContext(ctx, None))) == Global
  {
  }

  /** Values stored under other keys do not hide the logger. */
  lemma ForeignLayerKeepsLogger(ctx: Context, k: Key, v: Value)
    requires k != LoggerKey
    ensures FromContext(Some(WithValue(ctx, k, v))) == FromContext(Some(ctx))
  {
  }

  // ---------------------------------------------------------------------
  // Field helpers

  /** `WithFields(l, fields...)`: a nil l means the global logger. */
  function WithFields(l: Option<Logger>, fields: seq<Field>): (r: Logger)
    ensures r.core == l.ValueOr(Global).core
    ensures |r.fields| == |l.ValueOr(Global).fields| + |fields|
    ensures r.fields[..|l.ValueOr(Global).fields|] == l.ValueOr(Global).fields
    ensures r.fields[|l.ValueOr(Global).fields|..] == fields
  {
    l.ValueOr(Global).With(fields)
  }

  /** Two calls attach both lists in order, and a nil logger acts as the global one. */
  lemma WithFieldsComposes(l: Option<Logger>, a: seq<Field>, b: seq<Field>)
    ensures WithFields(Some(WithFields(l, a)), b) == WithFields(l, a + b)
    ensures WithFields(None, a) == WithFields(Some(Global), a)
  {
    WithComposes(l.ValueOr(Global), a, b);
  }

  /** The fields `AttachRequest` adds: request_id, then client_ip, each only when non-empty. */
  function RequestFields(reqID: GoString, clientIP: GoString): seq<Field> {
    (if reqID == [] then [] else [StringField(RequestIdKey(), reqID)])
      + (if clientIP == [] then [] else [StringField(ClientIpKey(), clientIP)])
  }

  /** The two optional appends of `AttachRequest` add exactly the request fields. */
  lemma AppendBoth(base: seq<Field>, reqID: GoString, clientIP: GoString)
    ensures var withId := if reqID != [] then base + [StringField(RequestIdKey(), reqID)] else base;
      (if clientIP != [] then withId + [StringField(ClientIpKey(), clientIP)] else withId)
        == base + RequestFields(reqID, clientIP)
  {
  }

  /**
   * `AttachRequest(ctx, reqID, clientIP)`: the logger drawn from ctx, with
   * the request fields attached, stored back into ctx.
   */
  function AttachRequest(ctx: Option<Context>, reqID: GoString, clientIP: GoString): (r: Context)
    ensures FromContext(Some(r)).core == FromContext(ctx).core
    ensures FromContext(Some(r)).fields == FromContext(ctx).fields + RequestFields(reqID, clientIP)
    ensures forall k :: k != LoggerKey ==>
      Lookup(r, k) == if ctx.Some? then Lookup(ctx.value, k) else None
  {
    var l0 := FromContext(ctx);
    var l1 := if reqID != [] then l0.With([StringField(RequestIdKey(), reqID)]) else l0;
    var l2 := if clientIP != [] then l1.With([StringField(ClientIpKey(), clientIP)]) else l1;
    AppendBoth(l0.fields, reqID, clientIP);
    assert l2.fields == l0.fields + RequestFields(reqID, clientIP);
    WithContext(ctx, Some(l2))
  }

  /**
   * Field by field: the before fields first, then request_id right after them
   * when reqID is non-empty, and client_ip last when clientIP is non-empty.
   */
  lemma AttachRequestFields(ctx: Option<Context>, reqID: GoString, clientIP: GoString)
    ensures var before := FromContext(ctx).fields;
      var after := FromContext(Some(AttachRequest(ctx, reqID, clientIP))).fields;
      && |after| == |before| + (if reqID == [] then 0 else 1) + (if clientIP == [] then 0 else 1)
      && after[..|before|] == before
      && (reqID != [] ==> after[|before|] == StringField(RequestIdKey(), reqID))
      && (clientIP != [] ==> after[|after| - 1] == StringField(ClientIpKey(), clientIP))
  {
    var before := FromContext(ctx).fields;
    var after := FromContext(Some(AttachRequest(ctx, reqID, clientIP))).fields;
    var extra := RequestFields(reqID, clientIP);
    assert after == before + extra;
    assert after[..|before|] == before;
    if reqID != [] {
      assert after[|before|] == extra[0];
    }
  }

  /** With neither value given, the context's logger is the one it had before. */
  lemma AttachRequestNothing(ctx: Option<Context>)
    ensures FromContext(Some(AttachRequest(ctx, [], []))) == FromContext(ctx)
  {
    var l := FromContext(ctx);
    assert l.fields + [] == l.fields;
  }

  /**
   * `LogError(l, err, msg, fields...)`, as the entry it hands to the core at
   * Error level; a nil l means the global logger.
   */
  function LogError(l: Option<Logger>, err: Option<Error>, msg: GoString, fields: seq<Field>): (e: Entry)
    ensures e.logger == l.ValueOr(Global) && e.level == ErrorLevel && e.msg == msg
    ensures |fields| <= |e.fields| <= |fields| + 1
    ensures e.fields[..|fields|] == fields
    ensures |e.fields| == |fields| + 1 <==> err.Some?
    ensures err.Some? ==> e.fields[|fields|] == ErrorField(err.value)
  {
    var fields := if err.Some? then fields + [ErrorField(err.value)] else fields;
    Entry(l.ValueOr(Global), ErrorLevel, msg, fields)
  }

  // ---------------------------------------------------------------------
  // Must

  datatype MustOutcome = Returned(logger: Option<Logger>) | Panicked(err: Error)

  /** `Must(logger, err)`: hands the logger back when err is nil and panics with err otherwise. */
  function Must(logger: Option<Logger>, err: Option<Error>): (r: MustOutcome)
    ensures r.Returned? <==> err.None?
    ensures r.Returned? ==> r.logger == logger
    ensures r.Panicked? ==> err == Some(r.err)
  {
    if err.Some? then Panicked(err.value) else Returned(logger)
  }
}
