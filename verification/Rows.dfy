/**
 What a row of the data-plane says, read straight off its JSON members. The verdict on a request and the list
 of served hosts are stated in these terms, not in the compiler's.
 */
module Rows {
  import opened Wrappers
  import opened Json
  import opened Decimal
  import opened Library
  import opened Ruleset

  type Members = map<string, Json>

  /** A text, or `null`, which says "". */
  function TextAt(m: Members, field: string): Option<string> {
    if field in m && m[field].Str? then Some(m[field].s)
    else if field in m && m[field] == Null then Some("")
    else None
  }

  /** A row is switched off by `false` and by `null`, and by nothing else. */
  predicate Off(m: Members) {
    "enabled" in m && m["enabled"] in {Bool(false), Null}
  }

  /** A number of at least 1, else the default. */
  function LimitAt(lib: Lib, m: Members, field: string, default: nat): nat {
    if field in m && m[field].Num? && lib.truncatedFloat(m[field].text).Some? && ToInt64(lib.truncatedFloat(m[field].text).value) >= 1
    then ToInt64(lib.truncatedFloat(m[field].text).value)
    else default
  }

  /** A number, 0 for `null`, 1000 for anything else. */
  function PriorityAt(lib: Lib, m: Members): int {
    if "priority" in m && m["priority"].Num? && lib.truncatedFloat(m["priority"].text).Some?
    then ToInt64(lib.truncatedFloat(m["priority"].text).value)
    else if "priority" in m && m["priority"] == Null then 0
    else 1000
  }

  function VersionAt(lib: Lib, m: Members): int {
    if "configVersion" in m && m["configVersion"].Num? && lib.truncatedFloat(m["configVersion"].text).Some?
    then ToInt64(lib.truncatedFloat(m["configVersion"].text).value)
    else 0
  }

  function ConditionAt(m: Members): Option<Json> {
    if "matchCondition" in m then Some(m["matchCondition"]) else None
  }

  /** The three names that act; every other name only logs. */
  function ActionNamed(name: string): Action {
    if name == "allow" then ActAllow
    else if name == "block" then ActBlock
    else if name == "challenge" then ActChallenge
    else ActLog
  }

  /** The row's own status before the one it is wrapped in. */
  function StatusAt(m: Members, envelope: Option<string>): string {
    if TextAt(m, "status").Some? then TextAt(m, "status").value
    else if envelope.Some? then envelope.value
    else "pending"
  }

  /** A zone that the edge should know: active, or paused. */
  predicate InService(m: Members, envelope: Option<string>) {
    StatusAt(m, envelope) in {"active", "paused"}
  }
}
