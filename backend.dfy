/** The backend's answers as the relay sees them: a JSON value, and the
    HasFailed test every response continuation starts with. */
module Backend {
  import opened Wrappers

  datatype Json =
    | JNull
    | JBool(b: bool)
    | JNumber(n: int)
    | JString(s: string)
    | JArray(items: seq<Json>)
    | JObject(fields: map<string, Json>)

  /** `pat` occurs in `s` starting at position `k`. */
  predicate OccursAt(s: string, pat: string, k: int)
  {
    0 <= k && k + |pat| <= |s| && s[k..k + |pat|] == pat
  }

  /** String.prototype.indexOf(pat, from): the first position at or after
      `from` (clamped to the length of `s`) where `pat` occurs in `s`, or -1.
      An empty pattern occurs at the clamped start itself. */
  function IndexOf(s: string, pat: string, from: nat): (r: int)
    decreases |s| - from
    ensures var start := if from <= |s| then from else |s|;
            r == -1 || (start <= r && OccursAt(s, pat, r))
    ensures var start := if from <= |s| then from else |s|;
            forall k :: start <= k && (r == -1 || k < r) ==> !OccursAt(s, pat, k)
  {
    if pat == [] then (if from <= |s| then from else |s|)
    else if from + |pat| > |s| then -1
    else if s[from..from + |pat|] == pat then from
    else IndexOf(s, pat, from + 1)
  }

  /** Array.prototype.indexOf(x, from): the first index at or after `from`
      holding `x`, or -1. */
  function ArrayIndexOf(items: seq<Json>, x: Json, from: nat): (r: int)
    decreases |items| - from
    ensures r == -1 || (from <= r < |items| && items[r] == x)
    ensures forall k :: from <= k < |items| && (r == -1 || k < r) ==> items[k] != x
  {
    if from >= |items| then -1
    else if items[from] == x then from
    else ArrayIndexOf(items, x, from + 1)
  }

  /** The `try` block of HasFailed: Some(verdict), or None where evaluating
      `typeof res.Value !== "undefined" && res.Value.indexOf("Error") == 0`
      throws a TypeError (a property read on null, or a Value that has no
      indexOf method). */
  function FailedCheck(res: Json): Option<bool>
  {
    match res
    case JNull => None
    case JObject(fields) =>
      if "Value" !in fields then Some(false)
      else (match fields["Value"]
            case JString(s) => Some(IndexOf(s, "Error", 0) == 0)
            case JArray(items) => Some(ArrayIndexOf(items, JString("Error"), 0) == 0)
            case _ => None)
    case _ => Some(false)
  }

  /** The Value member of an object response, if it has one. */
  function ValueOf(res: Json): Option<Json>
  {
    if res.JObject? && "Value" in res.fields then Some(res.fields["Value"]) else None
  }

  /** HasFailed(res): a thrown exception counts as a failure; otherwise the
      response failed iff its Value starts with "Error" (for an array Value:
      iff its first element is the string "Error"). */
  function HasFailed(res: Json): (failed: bool)
    ensures res.JNull? ==> failed
    ensures !res.JNull? && ValueOf(res).None? ==> !failed
    ensures ValueOf(res).Some? && ValueOf(res).value.JString? ==>
              (failed <==> "Error" <= ValueOf(res).value.s)
    ensures ValueOf(res).Some? && ValueOf(res).value.JArray? ==>
              (failed <==> |ValueOf(res).value.items| > 0 && ValueOf(res).value.items[0] == JString("Error"))
    ensures ValueOf(res).Some? && !ValueOf(res).value.JString? && !ValueOf(res).value.JArray? ==> failed
  {
    match FailedCheck(res)
    case None => true
    case Some(verdict) => verdict
  }

  /** The verdict on a string Value depends on its first five characters
      only: whatever follows "Error" the call failed, and a Value that does
      not begin with it passes. */
  lemma ErrorPrefixDecides(fields: map<string, Json>, s: string, tail: string)
    requires "Value" in fields && fields["Value"] == JString(s)
    ensures HasFailed(JObject(fields["Value" := JString("Error" + tail)]))
    ensures |s| < 5 || s[..5] != "Error" ==> !HasFailed(JObject(fields))
  {
    assert "Error" <= "Error" + tail;
  }
}
