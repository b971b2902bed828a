/**
 * Java's `String.replace(CharSequence target, CharSequence replacement)`:
 * the text is scanned from left to right and every occurrence of the target
 * that does not overlap an earlier replaced one is replaced.
 */
module Text {

  /** `p` occurs in `s` starting at index `i`. */
  predicate OccursAt(s: string, p: string, i: nat)
  {
    i + |p| <= |s| && s[i..i + |p|] == p
  }

  predicate Contains(s: string, p: string)
  {
    exists i: nat | i <= |s| :: OccursAt(s, p, i)
  }

  /** No character of `a` appears anywhere in `b`. */
  predicate SharesNoChar(a: string, b: string)
  {
    forall i :: 0 <= i < |a| ==> a[i] !in b
  }

  function Replace(s: string, target: string, replacement: string): (r: string)
    requires |target| > 0
    decreases |s|
  {
    if |s| < |target| then s
    else if s[..|target|] == target then replacement + Replace(s[|target|..], target, replacement)
    else [s[0]] + Replace(s[1..], target, replacement)
  }

  /** Text without the target comes back unchanged. */
  lemma {:induction false} ReplaceAbsent(s: string, target: string, replacement: string)
    requires |target| > 0 && !Contains(s, target)
    ensures Replace(s, target, replacement) == s
    decreases |s|
  {
    if |s| >= |target| {
      assert !OccursAt(s, target, 0);
      NotContainedInTail(s, target, 1);
      ReplaceAbsent(s[1..], target, replacement);
    }
  }

  lemma NotContainedInTail(s: string, p: string, k: nat)
    requires k <= |s| && !Contains(s, p)
    ensures !Contains(s[k..], p)
  {
    forall i: nat | OccursAt(s[k..], p, i)
      ensures OccursAt(s, p, i + k)
    {
      assert s[k..][i..i + |p|] == s[i + k..i + k + |p|];
    }
  }

  /** Every character of the result comes from the text or from the replacement. */
  lemma {:induction false} ReplaceChars(s: string, target: string, replacement: string)
    requires |target| > 0
    ensures forall i :: 0 <= i < |Replace(s, target, replacement)| ==>
      Replace(s, target, replacement)[i] in s || Replace(s, target, replacement)[i] in replacement
    decreases |s|
  {
    if |s| >= |target| {
      var k := if s[..|target|] == target then |target| else 1;
      ReplaceChars(s[k..], target, replacement);
      forall c | c in s[k..] ensures c in s {
        var j :| 0 <= j < |s[k..]| && s[k..][j] == c;
        assert s[j + k] == c;
      }
    }
  }

  /**
   * As long as the result shows no character of the replacement, it is a
   * plain copy of the text: the scan cannot have replaced anything there.
   */
  lemma {:induction false} ReplaceKeepsCleanPrefix(s: string, target: string, replacement: string)
    requires |target| > 0 && |replacement| > 0
    ensures forall k: nat ::
      (k <= |Replace(s, target, replacement)| &&
       SharesNoChar(Replace(s, target, replacement)[..k], replacement)) ==>
      (k <= |s| && Replace(s, target, replacement)[..k] == s[..k])
    decreases |s|
  {
    var r := Replace(s, target, replacement);
    if |s| < |target| {
    } else if s[..|target|] == target {
      assert r[0] == replacement[0];
    } else {
      var rest := Replace(s[1..], target, replacement);
      ReplaceKeepsCleanPrefix(s[1..], target, replacement);
      forall k: nat | k <= |r| && SharesNoChar(r[..k], replacement)
        ensures k <= |s| && r[..k] == s[..k]
      {
        if k > 0 {
          assert r[..k] == [s[0]] + rest[..k - 1];
          assert rest[..k - 1] == r[..k][1..];
          assert s[..k] == [s[0]] + s[1..][..k - 1];
        }
      }
    }
  }

  /** An occurrence at the head of `[s[0]] + Replace(s[1..])` was already in the text. */
  lemma OccurrenceAtHead(s: string, target: string, replacement: string, p: string)
    requires |target| > 0 && |replacement| > 0 && |s| > 0 && |p| > 0
    requires SharesNoChar(p, replacement)
    ensures OccursAt([s[0]] + Replace(s[1..], target, replacement), p, 0) ==> OccursAt(s, p, 0)
  {
    var rest := Replace(s[1..], target, replacement);
    ReplaceKeepsCleanPrefix(s[1..], target, replacement);
    if |p| <= 1 + |rest| {
      assert ([s[0]] + rest)[..|p|] == [s[0]] + rest[..|p| - 1];
      assert SharesNoChar(p[1..], replacement);
      assert p == [p[0]] + p[1..];
      if |p| <= |s| {
        assert s[..|p|] == [s[0]] + s[1..][..|p| - 1];
      }
    }
  }

  lemma OccursAtShift(a: string, b: string, p: string, j: nat)
    requires j >= |a|
    ensures OccursAt(a + b, p, j) <==> OccursAt(b, p, j - |a|)
  {
    if j + |p| <= |a + b| {
      assert (a + b)[j..j + |p|] == b[j - |a|..j - |a| + |p|];
    }
  }

  /**
   * When the replacement is non-empty and has no character of the target,
   * the result no longer contains the target: every occurrence was replaced.
   */
  lemma {:induction false} ReplaceRemovesAll(s: string, target: string, replacement: string)
    requires |target| > 0 && |replacement| > 0
    requires SharesNoChar(target, replacement)
    ensures !Contains(Replace(s, target, replacement), target)
    decreases |s|
  {
    var r := Replace(s, target, replacement);
    if |s| < |target| {
      assert forall j: nat :: !OccursAt(r, target, j);
    } else if s[..|target|] == target {
      var rest := Replace(s[|target|..], target, replacement);
      ReplaceRemovesAll(s[|target|..], target, replacement);
      forall j: nat ensures !OccursAt(r, target, j) {
        if j < |replacement| {
          assert r[j] == replacement[j];
          assert replacement[j] in replacement;
        } else {
          OccursAtShift(replacement, rest, target, j);
        }
      }
    } else {
      var rest := Replace(s[1..], target, replacement);
      ReplaceRemovesAll(s[1..], target, replacement);
      OccurrenceAtHead(s, target, replacement, target);
      forall j: nat ensures !OccursAt(r, target, j) {
        if j >= 1 {
          OccursAtShift([s[0]], rest, target, j);
        }
      }
    }
  }

  /**
   * Replacing one target cannot create another pattern `p` that the text did
   * not contain, when the replacement is non-empty and has no character of `p`.
   */
  lemma {:induction false} ReplaceCreatesNothing(s: string, target: string, replacement: string, p: string)
    requires |target| > 0 && |replacement| > 0 && |p| > 0
    requires SharesNoChar(p, replacement) && !Contains(s, p)
    ensures !Contains(Replace(s, target, replacement), p)
    decreases |s|
  {
    var r := Replace(s, target, replacement);
    if |s| < |target| {
    } else {
      var matched := s[..|target|] == target;
      var k := if matched then |target| else 1;
      var head := if matched then replacement else [s[0]];
      var rest := Replace(s[k..], target, replacement);
      assert r == head + rest;
      NotContainedInTail(s, p, k);
      ReplaceCreatesNothing(s[k..], target, replacement, p);
      if !matched {
        OccurrenceAtHead(s, target, replacement, p);
      }
      forall j: nat ensures !OccursAt(r, p, j) {
        if j >= |head| {
          OccursAtShift(head, rest, p, j);
        } else if matched {
          assert r[j] == replacement[j];
          assert replacement[j] in replacement;
        } else {
          assert !OccursAt(s, p, 0);
        }
      }
    }
  }

  /** Text before the first possible target start is copied unchanged. */
  lemma {:induction false} ReplaceSkipsPrefix(u: string, v: string, target: string, replacement: string)
    requires |target| > 0 && target[0] !in u
    ensures Replace(u + v, target, replacement) == u + Replace(v, target, replacement)
    decreases |u|
  {
    var s := u + v;
    if |u| == 0 {
      assert s == v;
    } else if |s| < |target| {
      assert Replace(v, target, replacement) == v;
      assert Replace(s, target, replacement) == s;
    } else {
      assert s[..|target|] != target by { assert s[..|target|][0] == u[0]; }
      assert s[1..] == u[1..] + v;
      ReplaceSkipsPrefix(u[1..], v, target, replacement);
      assert Replace(s, target, replacement) == [s[0]] + Replace(s[1..], target, replacement);
      assert u == [u[0]] + u[1..];
    }
  }

  /** Where no target starts at the head, the first character is copied and the scan moves on by one. */
  lemma ReplaceNoMatchAtHead(s: string, target: string, replacement: string)
    requires |target| > 0 && |s| > 0 && !OccursAt(s, target, 0)
    ensures Replace(s, target, replacement) == [s[0]] + Replace(s[1..], target, replacement)
  {
    if |s| < |target| {
      assert Replace(s[1..], target, replacement) == s[1..];
      assert s == [s[0]] + s[1..];
    }
  }

  /** A target at the head is replaced and the scan resumes after it. */
  lemma ReplaceAtHead(v: string, target: string, replacement: string)
    requires |target| > 0
    ensures Replace(target + v, target, replacement) == replacement + Replace(v, target, replacement)
  {
    assert (target + v)[..|target|] == target;
    assert (target + v)[|target|..] == v;
  }

  /**
   * A different pattern of the same length that starts like the target but
   * whose later characters never start a target is copied unchanged.
   */
  lemma ReplaceSkipsOther(q: string, v: string, target: string, replacement: string)
    requires |target| > 0 && |q| == |target| && q != target && target[0] !in q[1..]
    ensures Replace(q + v, target, replacement) == q + Replace(v, target, replacement)
  {
    var s := q + v;
    assert s[..|target|] == q;
    assert Replace(s, target, replacement) == [s[0]] + Replace(s[1..], target, replacement);
    assert s[1..] == q[1..] + v;
    ReplaceSkipsPrefix(q[1..], v, target, replacement);
    assert q == [q[0]] + q[1..];
    assert [s[0]] + (q[1..] + Replace(v, target, replacement)) == q + Replace(v, target, replacement);
  }
}
