/**
 * The two JavaScript string operations the product search relies on:
 * `String.prototype.toLowerCase` and `String.prototype.includes`.
 *
 * Lower-casing is taken as a per-character map `lower` supplied by the
 * caller, so nothing here depends on Unicode case tables.
 */
module Text {

  /** `s.toLowerCase()`, character by character through `lower`. */
  function Lower(s: string, lower: char -> char): (r: string)
    ensures |r| == |s|
    ensures s == [] ==> r == []
  {
    seq(|s|, i requires 0 <= i < |s| => lower(s[i]))
  }

  /** `t` occurs in `s` starting at position `i`. */
  predicate OccursAt(s: string, t: string, i: int)
  {
    0 <= i && i + |t| <= |s| && s[i..i + |t|] == t
  }

  /** `t` is a prefix of `s`: one step of the `includes` scan. */
  predicate IsPrefix(t: string, s: string)
  {
    |t| <= |s| && s[..|t|] == t
  }

  /**
   * `s.includes(t)`: try every start position from left to right.
   * The empty string is included in every string.
   */
  predicate Includes(s: string, t: string)
    ensures Includes(s, t) ==> |t| <= |s|
    decreases |s|
  {
    IsPrefix(t, s) || (|s| > 0 && Includes(s[1..], t))
  }

  /** An occurrence at any position is found by the left-to-right scan. */
  lemma {:induction false} OccursAtIncludes(s: string, t: string, i: int)
    requires OccursAt(s, t, i)
    ensures Includes(s, t)
    decreases i
  {
    if i == 0 {
      assert s[..|t|] == s[0..0 + |t|];
    } else {
      assert s[1..][i - 1..i - 1 + |t|] == s[i..i + |t|];
      OccursAtIncludes(s[1..], t, i - 1);
    }
  }

  /** What the scan finds is an occurrence at some position. */
  lemma {:induction false} IncludesOccursAt(s: string, t: string)
    requires Includes(s, t)
    ensures exists i :: OccursAt(s, t, i)
    decreases |s|
  {
    if IsPrefix(t, s) {
      assert s[0..0 + |t|] == s[..|t|];
      assert OccursAt(s, t, 0);
    } else {
      IncludesOccursAt(s[1..], t);
      var i :| OccursAt(s[1..], t, i);
      assert s[1..][i..i + |t|] == s[i + 1..i + 1 + |t|];
      assert OccursAt(s, t, i + 1);
    }
  }

  /** The scan agrees with the positional definition: `t` occurs in `s` at some index. */
  lemma IncludesIff(s: string, t: string)
    ensures Includes(s, t) <==> exists i :: OccursAt(s, t, i)
  {
    if Includes(s, t) {
      IncludesOccursAt(s, t);
    }
    if exists i :: OccursAt(s, t, i) {
      var i :| OccursAt(s, t, i);
      OccursAtIncludes(s, t, i);
    }
  }

  /** Every string includes the empty string, so an empty query matches everything. */
  lemma IncludesEmpty(s: string)
    ensures Includes(s, [])
  {
    assert IsPrefix([], s);
  }
}
