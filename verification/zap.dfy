/**
 * The part of the zap logger the façade relies on, kept abstract: a logger
 * is an opaque core (encoder, sink, level) plus the structured fields that
 * `With` has attached to it so far.
 */
module Zap {
  import opened Bytes
  import opened Errors

  datatype FieldValue =
    | StringValue(s: GoString)
    | ErrorValue(err: Error)
    /** Any other kind of field value, such as an integer or a duration. */
    | OtherValue(id: int)

  /** A `zap.Field`: a key and a typed value. */
  datatype Field = Field(key: GoString, value: FieldValue)

  datatype Level = Debug | Info | Warn | ErrorLevel

  datatype Logger = Logger(core: nat, fields: seq<Field>) {

    /** `l.With(fields...)`: a child logger with the same core and the new fields after the old ones. */
    function With(more: seq<Field>): (child: Logger)
      ensures child.core == core
      ensures |child.fields| == |fields| + |more|
      ensures child.fields[..|fields|] == fields && child.fields[|fields|..] == more
    {
      Logger(core, fields + more)
    }
  }

  /** One record handed to the core by `l.Error(msg, fields...)` and friends. */
  datatype Entry = Entry(logger: Logger, level: Level, msg: GoString, fields: seq<Field>)

  /**
   * The process-wide logger `zap.L()` returns. It is never nil; which logger
   * it is depends on earlier `ReplaceGlobals` calls, so here it is fixed.
   */
  const Global: Logger := Logger(0, [])

  /** "request_id" */
  function RequestIdKey(): GoString {
    [0x72, 0x65, 0x71, 0x75, 0x65, 0x73, 0x74, 0x5F, 0x69, 0x64]
  }

  /** "client_ip" */
  function ClientIpKey(): GoString {
    [0x63, 0x6C, 0x69, 0x65, 0x6E, 0x74, 0x5F, 0x69, 0x70]
  }

  /** "error", the key `zap.Error` uses. */
  function ErrorKey(): GoString {
    [0x65, 0x72, 0x72, 0x6F, 0x72]
  }

  /** `zap.String(key, val)` */
  function StringField(key: GoString, val: GoString): Field {
    Field(key, StringValue(val))
  }

  /** `zap.Error(err)` for a non-nil err. */
  function ErrorField(err: Error): Field {
    Field(ErrorKey(), ErrorValue(err))
  }

  /** `With` adds the given fields and nothing else; two calls add both lists in order. */
  lemma WithComposes(l: Logger, a: seq<Field>, b: seq<Field>)
    ensures l.With(a).With(b) == l.With(a + b)
    ensures l.With([]) == l
    ensures l.With(a).core == l.core
  {
    assert l.fields + a + b == l.fields + (a + b);
    assert l.fields + [] == l.fields;
  }
}
