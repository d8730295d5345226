/** The buffer sizes every program configures at start-up from `pathconf`: the
    reported limit, or a fallback when the limit is indeterminate, plus one for the
    terminating NUL. */
module Limits {

  import opened Common
  import opened CStrings

  const PATH_FALLBACK: nat := 1024
  const NAME_FALLBACK: nat := 256

  /** `path_max` and `name_max` once configured. */
  datatype Config = Config(pathMax: nat, nameMax: nat)

  /** One `pathconf` query: `reported` is its result (-1 when the limit is
      indeterminate or the call failed) and `errno` the error number then visible. A
      -1 with a nonzero `errno` aborts the program (`None`). */
  function ConfiguredMax(reported: int, errno: int, fallback: nat): (r: Option<nat>)
    requires reported >= -1
    ensures r.None? <==> reported == -1 && errno != 0
    ensures r.Some? ==> r.value == (if reported == -1 then fallback else reported) + 1
    ensures r.Some? ==> r.value >= 1
  {
    if reported != -1 then Some(reported + 1)
    else if errno == 0 then Some(fallback + 1)
    else None
  }

  /** The start-up configuration: the path limit first, then the name limit; either
      failure aborts. */
  function Configure(pathReported: int, pathErrno: int, nameReported: int, nameErrno: int): (c: Option<Config>)
    requires pathReported >= -1 && nameReported >= -1
    ensures c.Some? <==> ConfiguredMax(pathReported, pathErrno, PATH_FALLBACK).Some? &&
                         ConfiguredMax(nameReported, nameErrno, NAME_FALLBACK).Some?
    ensures c.Some? ==> c.value.pathMax == ConfiguredMax(pathReported, pathErrno, PATH_FALLBACK).value &&
                        c.value.nameMax == ConfiguredMax(nameReported, nameErrno, NAME_FALLBACK).value
  {
    var p := ConfiguredMax(pathReported, pathErrno, PATH_FALLBACK);
    var n := ConfiguredMax(nameReported, nameErrno, NAME_FALLBACK);
    if p.None? || n.None? then None else Some(Config(p.value, n.value))
  }

  /** The `++` makes room for the terminator: a NUL-free path as long as the reported
      (or fallback) limit fits the configured buffer and is read back unchanged. */
  lemma ConfiguredLimitFits(p: string, reported: int, errno: int, fallback: nat)
    requires reported >= -1 && ConfiguredMax(reported, errno, fallback).Some?
    requires |p| <= (if reported == -1 then fallback else reported) && NulFree(p)
    ensures |p| < ConfiguredMax(reported, errno, fallback).value
    ensures CStr(StrcpyInto(p, ConfiguredMax(reported, errno, fallback).value)) == p
  {
    StrcpyRoundTrip(p, ConfiguredMax(reported, errno, fallback).value);
  }

  /** With both limits indeterminate and no error, the buffers hold 1024 and 256
      characters plus the NUL. */
  lemma IndeterminateDefaults()
    ensures Configure(-1, 0, -1, 0) == Some(Config(1025, 257))
  {
  }
}
