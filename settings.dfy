/**
 * How the eraser settles its settings at the start of each invocation:
 * every setting is `config.X || process.env.X || <current module value>`,
 * JavaScript's first-truthy fallback, and the retention period is then
 * raised to a fixed minimum.
 */
module Settings {

  import opened Wrappers

  /** Module-level starting values. */
  const DefaultRetentionDays: int := 30
  const MinRetentionDays: int := 7
  const DefaultPageSize: int := 100
  const DefaultAsyncLimit: int := 20
  const DefaultRecordLimit: int := 1000
  const DefaultArchiveBucket: string := "voicemail-archives"

  /**
   * One source's view of every setting: the parameter-store document or
   * the process environment. An absent entry is `None`.
   */
  datatype Sources = Sources(
    retentionDays: Option<int>,
    invocationPageSize: Option<int>,
    invocationAsyncLimit: Option<int>,
    invocationRecordLimit: Option<int>,
    archiveS3Bucket: Option<string>)

  /**
   * JavaScript truthiness of a source entry: absent, and the type's one
   * falsy value (0 for numbers, "" for strings), are falsy.
   */
  predicate Truthy<T(==)>(o: Option<T>, falsy: T) {
    o.Some? && o.value != falsy
  }

  /** JavaScript `a || b`: `a` when it is truthy, otherwise `b`. */
  function Or<T(==)>(a: Option<T>, b: Option<T>, falsy: T): (r: Option<T>)
    ensures Truthy(r, falsy) <==> Truthy(a, falsy) || Truthy(b, falsy)
    ensures r == a || r == b
    ensures Truthy(a, falsy) ==> r == a
    ensures !Truthy(a, falsy) ==> r == b
  {
    if Truthy(a, falsy) then a else b
  }

  /**
   * `config || env || current`: the first truthy source wins, in that
   * order of priority; the current value is used only when neither source
   * is truthy.
   */
  function Resolve<T(==)>(config: Option<T>, env: Option<T>, current: T, falsy: T): (r: T)
    ensures Truthy(config, falsy) ==> r == config.value
    ensures !Truthy(config, falsy) && Truthy(env, falsy) ==> r == env.value
    ensures !Truthy(config, falsy) && !Truthy(env, falsy) ==> r == current
  {
    Or(Or(config, env, falsy), Some(current), falsy).value
  }

  /** A falsy entry (0, "") is no entry at all: it falls through to the next source. */
  lemma FalsyFallsThrough<T>(env: Option<T>, current: T, falsy: T)
    ensures Resolve(Some(falsy), env, current, falsy) == Resolve(None, env, current, falsy)
    ensures Resolve(None, Some(falsy), current, falsy) == current
  {
  }

  /** The resolved value is falsy only when every source and the current value are. */
  lemma ResolvedFalsyOnlyFromCurrent<T>(config: Option<T>, env: Option<T>, current: T, falsy: T)
    ensures Resolve(config, env, current, falsy) == falsy ==> current == falsy
  {
  }

  /** The retention floor: a resolved retention below the minimum is raised to it. */
  function ClampRetention(days: int): (r: int)
    ensures r >= MinRetentionDays
    ensures days >= MinRetentionDays ==> r == days
    ensures r == days || r == MinRetentionDays
  {
    if days < MinRetentionDays then MinRetentionDays else days
  }

  /** The retention period an invocation uses, given the value the module held before it. */
  function EffectiveRetention(config: Sources, env: Sources, current: int): (r: int)
    ensures r >= MinRetentionDays
    ensures Truthy(config.retentionDays, 0) && config.retentionDays.value >= MinRetentionDays
            ==> r == config.retentionDays.value
  {
    ClampRetention(Resolve(config.retentionDays, env.retentionDays, current, 0))
  }

  /**
   * A warm container that runs again with the same sources settles on the
   * same retention: the value left behind by one invocation is a fixed
   * point of the next.
   */
  lemma RetentionSettles(config: Sources, env: Sources, current: int)
    ensures var once := EffectiveRetention(config, env, current);
      EffectiveRetention(config, env, once) == once
  {
  }
}
