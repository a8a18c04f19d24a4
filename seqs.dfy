/** Sequence helpers shared by every component: name-prefix tests and the
    "first element that breaks a rule" search that every short-circuiting
    loop of the cluster layer performs. */
module Seqs {

  /** `s.starts_with(p)` on file names. */
  predicate HasPrefix(s: string, p: string)
  {
    |p| <= |s| && s[..|p|] == p
  }

  /** The position of the first element of `s` that does not satisfy `ok`,
      or `|s|` when every element does. */
  function FirstViolation<T>(s: seq<T>, ok: T -> bool): (k: nat)
    ensures k <= |s|
    ensures forall j :: 0 <= j < k ==> ok(s[j])
    ensures k < |s| ==> !ok(s[k])
  {
    if |s| == 0 then 0
    else if !ok(s[0]) then 0
    else 1 + FirstViolation(s[1..], ok)
  }

  /** `FirstViolation` is the only position with its two defining
      properties, so a loop that stops at the first violation finds it. */
  lemma FirstViolationUnique<T>(s: seq<T>, ok: T -> bool, k: nat)
    requires k <= |s|
    requires forall j :: 0 <= j < k ==> ok(s[j])
    requires k < |s| ==> !ok(s[k])
    ensures FirstViolation(s, ok) == k
  {
  }
}
