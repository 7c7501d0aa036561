/**
 * The one string operation the service worker relies on:
 * `String.prototype.includes`, the substring test used for routing.
 */
module Strings {

  /** t occurs in s starting at position i. */
  predicate OccursAt(s: string, t: string, i: int) {
    0 <= i && i + |t| <= |s| && s[i..i + |t|] == t
  }

  /** `s.includes(t)`: t occurs somewhere in s. The empty string is included everywhere. */
  predicate Includes(s: string, t: string)
    ensures t == [] ==> Includes(s, t)
    ensures Includes(s, t) ==> |t| <= |s|
  {
    assert t == [] ==> OccursAt(s, t, 0);
    exists i | 0 <= i <= |s| - |t| :: OccursAt(s, t, i)
  }

  /** Inclusion is transitive: a string that includes t includes everything t includes. */
  lemma IncludesTransitive(s: string, t: string, u: string)
    requires Includes(s, t) && Includes(t, u)
    ensures Includes(s, u)
  {
    var i :| 0 <= i <= |s| - |t| && OccursAt(s, t, i);
    var j :| 0 <= j <= |t| - |u| && OccursAt(t, u, j);
    forall k | 0 <= k < |u|
      ensures s[i + j..i + j + |u|][k] == u[k]
    {
      assert u[k] == t[j + k] == s[i + j + k];
    }
    assert OccursAt(s, u, i + j);
  }

  /** A string includes every one of its infixes. */
  lemma IncludesInfix(p: string, t: string, q: string)
    ensures Includes(p + t + q, t)
  {
    assert (p + t + q)[|p|..|p| + |t|] == t;
    assert OccursAt(p + t + q, t, |p|);
  }

  /** Anything a string includes is still included once a prefix is put in front of it. */
  lemma IncludesAfterPrefix(p: string, s: string, t: string)
    requires Includes(s, t)
    ensures Includes(p + s, t)
  {
    var i :| 0 <= i <= |s| - |t| && OccursAt(s, t, i);
    assert (p + s)[|p| + i..|p| + i + |t|] == s[i..i + |t|];
    assert OccursAt(p + s, t, |p| + i);
  }

  /**
   * An included string whose first character the prefix lacks cannot start inside
   * the prefix, so it is included in what follows the prefix.
   */
  lemma IncludesPastPrefix(p: string, s: string, t: string)
    requires |t| > 0 && t[0] !in p && Includes(p + s, t)
    ensures Includes(s, t)
  {
    var i :| 0 <= i <= |p + s| - |t| && OccursAt(p + s, t, i);
    assert (p + s)[i] == (p + s)[i..i + |t|][0] == t[0];
    assert i >= |p|;
    assert s[i - |p|..i - |p| + |t|] == (p + s)[i..i + |t|];
    assert OccursAt(s, t, i - |p|);
  }

  /** Every character of an included string is a character of the including one. */
  lemma IncludesOnlyOwnChars(s: string, t: string, k: int)
    requires 0 <= k < |t|
    ensures Includes(s, t) ==> t[k] in s
  {
    if Includes(s, t) {
      var i :| 0 <= i <= |s| - |t| && OccursAt(s, t, i);
      assert s[i + k] == s[i..i + |t|][k];
    }
  }
}
