/**
 * The two string operations the tray code relies on, with the semantics of
 * the Qt string class: a case-sensitive substring test (`contains`) and an
 * in-place replacement of a pattern by the empty string (`replace`), which
 * scans left to right and removes every non-overlapping occurrence found in
 * the original text.
 */
module Strings {

  /** `p` occurs in `s` starting at position `i`. */
  predicate OccursAt(s: string, p: string, i: nat)
  {
    i + |p| <= |s| && s[i..i + |p|] == p
  }

  /** Case-sensitive substring test. */
  predicate Contains(s: string, p: string)
  {
    exists i: nat | i <= |s| :: OccursAt(s, p, i)
  }

  /**
   * Removes every occurrence of `p` from `s`, scanning left to right and
   * resuming after each removed occurrence; text created by joining the
   * pieces around a removed occurrence is not rescanned.
   */
  function RemoveAll(s: string, p: string): (r: string)
    requires p != []
    ensures |r| <= |s|
    ensures OccursAt(s, p, 0) ==> |r| <= |s| - |p|
    decreases |s|
  {
    if |s| < |p| then s
    else if s[..|p|] == p then RemoveAll(s[|p|..], p)
    else [s[0]] + RemoveAll(s[1..], p)
  }

  /** Text that does not contain the pattern comes back unchanged. */
  lemma {:induction false} RemoveAllAbsent(s: string, p: string)
    requires p != []
    requires !Contains(s, p)
    ensures RemoveAll(s, p) == s
    decreases |s|
  {
    if |s| < |p| {
    } else {
      assert !OccursAt(s, p, 0);
      assert s[..|p|] != p;
      assert forall i: nat :: i <= |s[1..]| && OccursAt(s[1..], p, i) ==> OccursAt(s, p, i + 1);
      assert !Contains(s[1..], p);
      RemoveAllAbsent(s[1..], p);
      assert [s[0]] + s[1..] == s;
    }
  }

  /**
   * The first occurrence splits the text: in a text made of a prefix in
   * which no occurrence starts, the pattern and a rest, the prefix is kept,
   * the occurrence is dropped and the scan resumes on the rest. With
   * `RemoveAllAbsent` this determines the result on every input.
   */
  lemma RemoveAllFirstOccurrence(a: string, t: string, p: string)
    requires p != []
    requires forall i: nat :: i < |a| ==> !OccursAt(a + p + t, p, i)
    ensures RemoveAll(a + p + t, p) == a + RemoveAll(t, p)
  {
    assert a + p + t == a + (p + t);
    RemoveAllAfterCleanPrefix(a, p + t, p);
    RemoveAllLeading(p, t);
  }

  /** Where no occurrence starts at the front, the first character is kept and the scan moves on. */
  lemma KeepFirst(s: string, p: string)
    requires p != [] && |p| <= |s| && !OccursAt(s, p, 0)
    ensures RemoveAll(s, p) == [s[0]] + RemoveAll(s[1..], p)
  {
    assert s[..|p|] != p;
  }

  /**
   * When no occurrence of the pattern starts inside `a`, removal works on
   * `t` alone and `a` is kept as it is.
   */
  lemma {:induction false} RemoveAllAfterCleanPrefix(a: string, t: string, p: string)
    requires p != []
    requires forall i: nat :: i < |a| ==> !OccursAt(a + t, p, i)
    ensures RemoveAll(a + t, p) == a + RemoveAll(t, p)
    decreases |a|
  {
    if a == [] {
      assert a + t == t;
    } else {
      var s := a + t;
      assert s[1..] == a[1..] + t;
      CleanPrefixTail(a, t, p);
      RemoveAllAfterCleanPrefix(a[1..], t, p);
      if |s| < |p| {
        assert RemoveAll(t, p) == t;
      } else {
        assert !OccursAt(s, p, 0);
        KeepFirst(s, p);
        assert s[0] == a[0];
        ConsTail(a, RemoveAll(t, p));
      }
    }
  }

  /** The first element put back in front of the rest. */
  lemma ConsTail(a: string, x: string)
    requires a != []
    ensures [a[0]] + (a[1..] + x) == a + x
  {
    assert [a[0]] + a[1..] == a;
  }

  /** A prefix free of occurrence starts stays so once its first character is dropped. */
  lemma CleanPrefixTail(a: string, t: string, p: string)
    requires a != []
    requires forall i: nat :: i < |a| ==> !OccursAt(a + t, p, i)
    ensures forall i: nat :: i < |a[1..]| ==> !OccursAt(a[1..] + t, p, i)
  {
    var s := a + t;
    assert s[1..] == a[1..] + t;
    forall i: nat | i < |a[1..]|
      ensures !OccursAt(a[1..] + t, p, i)
    {
      assert !OccursAt(s, p, i + 1);
      if i + |p| <= |s[1..]| {
        assert s[1..][i..i + |p|] == s[i + 1..i + 1 + |p|];
      }
    }
  }

  /**
   * No occurrence can straddle the end of pattern-free text `a` when the
   * text after it starts with a character that appears in the pattern only
   * as its first character.
   */
  lemma NoStraddle(a: string, t: string, p: string)
    requires p != [] && !Contains(a, p) && t != []
    requires forall k :: 1 <= k < |p| ==> p[k] != t[0]
    ensures forall i: nat :: i < |a| ==> !OccursAt(a + t, p, i)
  {
    var s := a + t;
    forall i: nat | i < |a|
      ensures !OccursAt(s, p, i)
    {
      if i + |p| <= |s| {
        if i + |p| <= |a| {
          assert s[i..i + |p|] == a[i..i + |p|];
          assert !OccursAt(a, p, i);
        } else {
          assert s[i..i + |p|][|a| - i] == s[|a|] == t[0];
        }
      }
    }
  }

  /** A leading occurrence of the pattern is removed and the scan resumes after it. */
  lemma RemoveAllLeading(p: string, t: string)
    requires p != []
    ensures RemoveAll(p + t, p) == RemoveAll(t, p)
  {
    assert (p + t)[..|p|] == p;
    assert (p + t)[|p|..] == t;
  }

  /** Text in which the pattern's first character never appears does not contain the pattern. */
  lemma AbsentFirstCharacter(s: string, p: string)
    requires p != []
    requires forall k :: 0 <= k < |s| ==> s[k] != p[0]
    ensures !Contains(s, p)
  {
    forall i: nat | i <= |s|
      ensures !OccursAt(s, p, i)
    {
      if i + |p| <= |s| {
        assert s[i..i + |p|][0] == s[i];
      }
    }
  }

  /** The result may still contain the pattern: pieces joined around a removed occurrence are not rescanned. */
  lemma RemoveAllDoesNotRescan()
    ensures RemoveAll("hthttps://tps://", "https://") == "https://"
  {
    var s := "hthttps://tps://";
    assert s[..8][2] != "https://"[2];
    assert s[1..][..8][1] != "https://"[1];
    assert s[2..][..8] == "https://";
    assert s[1..][1..] == s[2..];
    assert s[2..][8..] == "tps://";
  }
}
