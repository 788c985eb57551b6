/** The three JavaScript string operations the handlers rely on:
    `String.prototype.includes`, `replace` with a global literal pattern and an
    empty replacement, and `trim`. */
module TextOps {

  /** `p` occurs in `s` starting at index `i`. */
  predicate OccursAt(s: string, p: string, i: int)
  {
    0 <= i && i + |p| <= |s| && s[i..i + |p|] == p
  }

  lemma OccursAtTail(s: string, p: string, j: int)
    requires |s| > 0 && 0 <= j
    ensures OccursAt(s[1..], p, j) <==> OccursAt(s, p, j + 1)
  {
    if j + 1 + |p| <= |s| {
      assert s[1..][j..j + |p|] == s[j + 1..j + 1 + |p|];
    }
  }

  /** `s.includes(p)`: scans `s` from the left for an occurrence of `p`. */
  predicate Includes(s: string, p: string)
    decreases |s|
  {
    |p| <= |s| && (s[..|p|] == p || Includes(s[1..], p))
  }

  /** The scan finds `p` exactly when `p` occurs somewhere in `s`. */
  lemma {:induction false} IncludesIff(s: string, p: string)
    ensures Includes(s, p) <==> exists i :: OccursAt(s, p, i)
    decreases |s|
  {
    if |s| < |p| {
    } else if s[..|p|] == p {
      assert OccursAt(s, p, 0);
    } else {
      IncludesIff(s[1..], p);
      assert !OccursAt(s, p, 0);
      if Includes(s[1..], p) {
        var j :| OccursAt(s[1..], p, j);
        OccursAtTail(s, p, j);
      }
      if i :| OccursAt(s, p, i) {
        OccursAtTail(s, p, i - 1);
      }
    }
  }

  /** Being a substring is transitive. */
  lemma IncludesTransitive(s: string, t: string, p: string)
    requires Includes(s, t) && Includes(t, p)
    ensures Includes(s, p)
  {
    IncludesIff(s, t);
    IncludesIff(t, p);
    IncludesIff(s, p);
    var i :| OccursAt(s, t, i);
    var j :| OccursAt(t, p, j);
    assert t == s[i..i + |t|];
    forall k | 0 <= k < |p|
      ensures s[i + j..i + j + |p|][k] == p[k]
    {
      assert t[j + k] == p[k];
    }
    assert OccursAt(s, p, i + j);
  }

  /** `s.replace(/p/g, '')` for a literal, non-empty pattern `p`: the scan goes
      from left to right and deletes each occurrence it meets, resuming after
      it, so occurrences never overlap. The text shrinks exactly when the
      pattern occurs in it (the other direction is `RemoveAllAbsent`). */
  function RemoveAll(s: string, p: string): (r: string)
    requires p != []
    ensures |r| <= |s|
    ensures Includes(s, p) ==> |r| < |s|
    decreases |s|
  {
    if |s| < |p| then s
    else if s[..|p|] == p then RemoveAll(s[|p|..], p)
    else [s[0]] + RemoveAll(s[1..], p)
  }

  /** Where the pattern does not occur, nothing is removed. */
  lemma {:induction false} RemoveAllAbsent(s: string, p: string)
    requires p != [] && !Includes(s, p)
    ensures RemoveAll(s, p) == s
    decreases |s|
  {
    if |s| >= |p| {
      RemoveAllAbsent(s[1..], p);
      assert s == [s[0]] + s[1..];
    }
  }

  /** A character the scan cannot start a match at is kept. */
  lemma RemoveAllKeepsHead(s: string, p: string)
    requires p != [] && |s| > 0
    requires |s| < |p| || s[..|p|] != p
    ensures RemoveAll(s, p) == [s[0]] + RemoveAll(s[1..], p)
  {
    if |s| < |p| {
      assert s == [s[0]] + s[1..];
    }
  }

  lemma RemoveAllKeepsPlainHead(a: string, b: string, p: string)
    requires p != [] && a != [] && a[0] != p[0]
    ensures RemoveAll(a + b, p) == [a[0]] + RemoveAll(a[1..] + b, p)
  {
    var x := a + b;
    assert x[1..] == a[1..] + b;
    assert |x| < |p| || x[..|p|] != p by {
      if |x| >= |p| {
        assert x[..|p|][0] == x[0] == a[0];
      }
    }
    RemoveAllKeepsHead(x, p);
  }

  /** A prefix without the pattern's first character passes through unchanged. */
  lemma {:induction false} RemoveAllAfterPlainPrefix(a: string, b: string, p: string)
    requires p != []
    requires p[0] !in a
    ensures RemoveAll(a + b, p) == a + RemoveAll(b, p)
    decreases |a|
  {
    if a == [] {
      assert a + b == b;
    } else {
      RemoveAllKeepsPlainHead(a, b, p);
      assert a == [a[0]] + a[1..];
      RemoveAllAfterPlainPrefix(a[1..], b, p);
      var rb := RemoveAll(b, p);
      assert [a[0]] + (a[1..] + rb) == a + rb;
    }
  }

  /** Removing every run of a pattern made of one repeated character leaves
      none: the scan never keeps a character where a match begins, so no new
      occurrence can form across a deletion. Shown for the three-backtick fence. */
  lemma {:induction false} RemoveAllTripleLeavesNone(s: string, c: char)
    ensures !Includes(RemoveAll(s, [c, c, c]), [c, c, c])
    decreases |s|
  {
    var p := [c, c, c];
    if |s| < 3 {
    } else if s[..3] == p {
      RemoveAllTripleLeavesNone(s[3..], c);
    } else {
      var rest := RemoveAll(s[1..], p);
      RemoveAllTripleLeavesNone(s[1..], c);
      RemoveAllKeepsHead(s, p);
      var r := [s[0]] + rest;
      assert r[1..] == rest;
      if s[0] == c {
        if s[1] != c {
          RemoveAllKeepsHead(s[1..], p);
          assert rest[0] == s[1];
        } else {
          assert s[2] != c;
          RemoveAllKeepsHead(s[1..], p);
          assert s[1..][1..] == s[2..];
          RemoveAllKeepsHead(s[2..], p);
          assert rest[1] == s[2];
        }
      }
      assert |r| < 3 || r[..3] != p;
    }
  }

  /** The characters `String.prototype.trim` strips: ECMAScript WhiteSpace
      (tab, vertical tab, form feed, no-break space, the byte order mark and
      every space separator) and LineTerminator (LF, CR, U+2028, U+2029). */
  predicate IsSpace(c: char)
  {
    var n := c as int;
    n == 0x09 || n == 0x0A || n == 0x0B || n == 0x0C || n == 0x0D || n == 0x20 ||
    n == 0xA0 || n == 0x1680 || (0x2000 <= n <= 0x200A) || n == 0x2028 || n == 0x2029 ||
    n == 0x202F || n == 0x205F || n == 0x3000 || n == 0xFEFF
  }

  /** Drops the leading white space of `s`, and nothing else. */
  function TrimStart(s: string): (r: string)
    ensures |r| <= |s| && r == s[|s| - |r|..]
    ensures r == [] || !IsSpace(r[0])
    ensures forall k :: 0 <= k < |s| - |r| ==> IsSpace(s[k])
  {
    if |s| > 0 && IsSpace(s[0]) then TrimStart(s[1..]) else s
  }

  /** Drops the trailing white space of `s`, and nothing else. */
  function TrimEnd(s: string): (r: string)
    ensures |r| <= |s| && r == s[..|r|]
    ensures r == [] || !IsSpace(r[|r| - 1])
    ensures forall k :: |r| <= k < |s| ==> IsSpace(s[k])
  {
    if |s| > 0 && IsSpace(s[|s| - 1]) then TrimEnd(s[..|s| - 1]) else s
  }

  /** A suffix `t` of `s` after white space, cut to a prefix `r` before white
      space, is a piece of `s` with only white space around it. */
  lemma SpaceBoundedPiece(s: string, t: string, r: string)
    requires |t| <= |s| && t == s[|s| - |t|..] && forall k :: 0 <= k < |s| - |t| ==> IsSpace(s[k])
    requires |r| <= |t| && r == t[..|r|] && forall k :: |r| <= k < |t| ==> IsSpace(t[k])
    ensures Includes(s, r)
    ensures exists i, j :: 0 <= i <= j <= |s| && r == s[i..j] &&
              (forall k :: 0 <= k < i ==> IsSpace(s[k])) && (forall k :: j <= k < |s| ==> IsSpace(s[k]))
  {
    var i := |s| - |t|;
    assert s[i..][..|r|] == s[i..i + |r|];
    assert OccursAt(s, r, i);
    IncludesIff(s, r);
    forall k | i + |r| <= k < |s|
      ensures IsSpace(s[k])
    {
      assert s[k] == t[k - i];
    }
    assert r == s[i..i + |r|];
  }

  /** `s.trim()`: the piece of `s` left after dropping white space at both
      ends; it neither starts nor ends with white space. */
  function Trim(s: string): (r: string)
    ensures Includes(s, r)
    ensures r == [] || (!IsSpace(r[0]) && !IsSpace(r[|r| - 1]))
    ensures exists i, j :: 0 <= i <= j <= |s| && r == s[i..j] &&
              (forall k :: 0 <= k < i ==> IsSpace(s[k])) && (forall k :: j <= k < |s| ==> IsSpace(s[k]))
  {
    var t := TrimStart(s);
    var r := TrimEnd(t);
    SpaceBoundedPiece(s, t, r);
    assert r != [] ==> r[0] == t[0];
    r
  }

  /** A string already without white space at its ends is its own trim. */
  lemma TrimFixed(s: string)
    requires s == [] || (!IsSpace(s[0]) && !IsSpace(s[|s| - 1]))
    ensures Trim(s) == s
  {
  }

  /** `trim` is idempotent. */
  lemma TrimIdempotent(s: string)
    ensures Trim(Trim(s)) == Trim(s)
  {
    TrimFixed(Trim(s));
  }
}
