/** The `List<T>` queries the in-memory stores use: `Find` (first match),
    `Any`, and removal of the element `Find` returned. */
module Lists {
  import opened Wrappers

  /** Index of the first element that satisfies `p`; `None` where `Find`
      returns null. */
  function FindFirst<T>(s: seq<T>, p: T -> bool): (r: Option<nat>)
    ensures r.Some? ==> r.value < |s| && p(s[r.value])
    ensures r.Some? ==> forall j :: 0 <= j < r.value ==> !p(s[j])
    ensures r.None? ==> forall j :: 0 <= j < |s| ==> !p(s[j])
  {
    if |s| == 0 then None
    else if p(s[0]) then Some(0)
    else
      match FindFirst(s[1..], p)
      case None => None
      case Some(k) => Some(k + 1)
  }

  /** A position that matches, with nothing matching before it, is the
      first match. */
  lemma FindFirstIsFirst<T>(s: seq<T>, p: T -> bool, k: nat)
    requires k < |s| && p(s[k])
    requires forall j :: 0 <= j < k ==> !p(s[j])
    ensures FindFirst(s, p) == Some(k)
  {
  }

  predicate Any<T>(s: seq<T>, p: T -> bool) {
    exists i :: 0 <= i < |s| && p(s[i])
  }

  /** `Any` holds exactly when `Find` finds something. */
  lemma AnyIffFound<T>(s: seq<T>, p: T -> bool)
    ensures Any(s, p) <==> FindFirst(s, p).Some?
  {
    if FindFirst(s, p).Some? {
      assert p(s[FindFirst(s, p).value]);
    }
  }

  /** Two lists on which two conditions agree position by position give the
      same first match. */
  lemma {:induction false} FindFirstAgrees<T, U>(s: seq<T>, p: T -> bool, t: seq<U>, q: U -> bool)
    requires |s| == |t|
    requires forall k :: 0 <= k < |s| ==> p(s[k]) == q(t[k])
    ensures FindFirst(s, p) == FindFirst(t, q)
  {
    if |s| > 0 && !p(s[0]) {
      FindFirstAgrees(s[1..], p, t[1..], q);
    }
  }

  /** Appending an element never changes an existing first match; it is
      found only when nothing before it matches. */
  lemma {:induction false} FindFirstAppend<T>(s: seq<T>, x: T, p: T -> bool)
    ensures FindFirst(s + [x], p) ==
              if FindFirst(s, p).Some? then FindFirst(s, p)
              else if p(x) then Some(|s|) else None
  {
    if |s| > 0 && !p(s[0]) {
      assert (s + [x])[1..] == s[1..] + [x];
      FindFirstAppend(s[1..], x, p);
    }
  }

  /** The list without its element at `i`. */
  function RemoveAt<T>(s: seq<T>, i: nat): (r: seq<T>)
    requires i < |s|
    ensures |r| == |s| - 1
    ensures forall j :: 0 <= j < i ==> r[j] == s[j]
    ensures forall j :: i <= j < |r| ==> r[j] == s[j + 1]
  {
    s[..i] + s[i + 1..]
  }

  /** Removing an element that does not match keeps the first match, one
      place earlier when it came after the removed element. */
  lemma {:induction false} FindFirstAfterRemoval<T>(s: seq<T>, p: T -> bool, k: nat)
    requires k < |s| && !p(s[k])
    ensures FindFirst(RemoveAt(s, k), p) ==
              match FindFirst(s, p)
              case None => None
              case Some(m) => Some(if m < k then m else m - 1)
  {
    if k == 0 {
      assert RemoveAt(s, k) == s[1..];
    } else if !p(s[0]) {
      assert RemoveAt(s, k)[1..] == RemoveAt(s[1..], k - 1);
      FindFirstAfterRemoval(s[1..], p, k - 1);
    }
  }
}
