/**
 * Go's `context.Context` as far as values go: `context.Background()` and
 * layers added by `context.WithValue`, looked up from the innermost layer
 * outwards.
 */
module Context {
  import opened Nilable
  import opened Zap

  datatype Key =
    /** The façade's private `ctxKey`; no other package can build it. */
    | LoggerKey
    | ForeignKey(id: nat)

  datatype Value =
    /** A `*zap.Logger`, possibly a nil one. */
    | LoggerValue(logger: Option<Logger>)
    | ForeignValue(id: nat)

  datatype Context =
    | Background
    | WithValue(parent: Context, key: Key, val: Value)

  /** Some layer of ctx stores val under key. */
  predicate Binds(ctx: Context, key: Key, val: Value) {
    ctx.WithValue? && ((ctx.key == key && ctx.val == val) || Binds(ctx.parent, key, val))
  }

  /**
   * `ctx.Value(key)`, with `None` for a nil interface: the value of the
   * innermost layer that stores key, and nothing when no layer does.
   */
  function Lookup(ctx: Context, key: Key): (v: Option<Value>)
    ensures v.Some? ==> Binds(ctx, key, v.value)
    ensures v.None? ==> forall val :: !Binds(ctx, key, val)
    ensures ctx.WithValue? && ctx.key == key ==> v == Some(ctx.val)
  {
    match ctx
    case Background => None
    case WithValue(parent, k, val) =>
      if k == key then
        Some(val)
      else
        assert forall x :: Binds(ctx, key, x) == Binds(parent, key, x);
        Lookup(parent, key)
  }

  /** The (key, value) pairs of ctx's layers, outermost first. */
  function Layers(ctx: Context): seq<(Key, Value)> {
    match ctx
    case Background => []
    case WithValue(parent, k, val) => Layers(parent) + [(k, val)]
  }

  /**
   * `ctx.Value(key)` answers from the innermost layer that stores key: a
   * value found is that of some layer j storing key with no later layer
   * storing key, and nothing is found exactly when no layer stores key.
   */
  lemma {:induction false} LookupInnermost(ctx: Context, key: Key)
    ensures Lookup(ctx, key).Some? ==>
      exists j :: 0 <= j < |Layers(ctx)| && Layers(ctx)[j] == (key, Lookup(ctx, key).value)
        && forall m :: j < m < |Layers(ctx)| ==> Layers(ctx)[m].0 != key
    ensures Lookup(ctx, key).Some? <==> exists j :: 0 <= j < |Layers(ctx)| && Layers(ctx)[j].0 == key
  {
    match ctx
    case Background =>
    case WithValue(parent, k, val) =>
      var inner := Layers(parent);
      var all := Layers(ctx);
      assert all == inner + [(k, val)];
      assert all[|inner|] == (k, val);
      if k == key {
        assert Layers(ctx)[|inner|] == (key, val);
        assert exists j :: 0 <= j < |Layers(ctx)| && Layers(ctx)[j].0 == key;
      } else {
        LookupInnermost(parent, key);
        forall m | 0 <= m < |inner| ensures all[m] == inner[m] { }
        if Lookup(parent, key).Some? {
          var j :| 0 <= j < |inner| && inner[j] == (key, Lookup(parent, key).value)
            && forall m :: j < m < |inner| ==> inner[m].0 != key;
          assert Layers(ctx)[j] == (key, Lookup(ctx, key).value);
          assert exists i :: 0 <= i < |Layers(ctx)| && Layers(ctx)[i].0 == key;
        } else {
          forall j | 0 <= j < |all| ensures all[j].0 != key {
            if j < |inner| {
              assert all[j] == inner[j];
            }
          }
        }
      }
  }
}
