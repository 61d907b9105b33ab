/**
 * The few Python string operations the wiki code relies on, written out over
 * `seq<char>`: `str.replace`, `str.split(sep)[0]`, `str.split('/')[-1]` and
 * `sep.join(parts)`, with the facts about them that the enemy links need.
 */
module Text {

  /** True when `pat` occurs in `s` starting at index `i`. */
  predicate OccursAt(s: string, pat: string, i: int) {
    0 <= i && i + |pat| <= |s| && s[i..i + |pat|] == pat
  }

  /**
   * `s.replace(pat, rep)`: scanning left to right, every non-overlapping
   * occurrence of `pat` is replaced by `rep`. Only non-empty patterns are
   * used by the wiki code.
   */
  function Replace(s: string, pat: string, rep: string): string
    requires pat != []
    decreases |s|
  {
    if |s| < |pat| then s
    else if s[..|pat|] == pat then rep + Replace(s[|pat|..], pat, rep)
    else [s[0]] + Replace(s[1..], pat, rep)
  }

  /** Replacing one character by another acts on each position on its own. */
  lemma {:induction false} ReplaceCharAt(s: string, c: char, d: char)
    ensures |Replace(s, [c], [d])| == |s|
    ensures forall i :: 0 <= i < |s| ==>
              Replace(s, [c], [d])[i] == (if s[i] == c then d else s[i])
  {
    if s != [] {
      ReplaceCharAt(s[1..], c, d);
      var rest := Replace(s[1..], [c], [d]);
      assert Replace(s, [c], [d]) == (if s[0] == c then [d] else [s[0]]) + rest by {
        assert s[..1] == [s[0]];
      }
    }
  }

  /** A one-character replacement distributes over concatenation. */
  lemma ReplaceCharConcat(a: string, b: string, c: char, d: char)
    ensures Replace(a + b, [c], [d]) == Replace(a, [c], [d]) + Replace(b, [c], [d])
  {
    ReplaceCharAt(a + b, c, d);
    ReplaceCharAt(a, c, d);
    ReplaceCharAt(b, c, d);
    var lhs := Replace(a + b, [c], [d]);
    var rhs := Replace(a, [c], [d]) + Replace(b, [c], [d]);
    forall i | 0 <= i < |lhs| ensures lhs[i] == rhs[i] {
      if i >= |a| {
        assert (a + b)[i] == b[i - |a|];
      }
    }
  }

  /** Swapping `c` for `d` and back is the identity when `d` did not occur. */
  lemma ReplaceCharInverse(s: string, c: char, d: char)
    requires d !in s
    ensures Replace(Replace(s, [c], [d]), [d], [c]) == s
  {
    var once := Replace(s, [c], [d]);
    ReplaceCharAt(s, c, d);
    ReplaceCharAt(once, d, c);
    var twice := Replace(once, [d], [c]);
    forall i | 0 <= i < |s| ensures twice[i] == s[i] {
      assert s[i] != d;
    }
  }

  /** A pattern whose first character is absent from `s` changes nothing. */
  lemma {:induction false} ReplaceAbsent(s: string, pat: string, rep: string)
    requires pat != [] && pat[0] !in s
    ensures Replace(s, pat, rep) == s
  {
    if |s| >= |pat| {
      assert s[..|pat|][0] == s[0];
      assert s[0] in s;
      ReplaceAbsent(s[1..], pat, rep);
      assert [s[0]] + s[1..] == s;
    }
  }

  /**
   * When the first occurrence of `pat` follows a prefix `x` that does not even
   * contain `pat`'s first character, that occurrence is the first one replaced.
   */
  lemma {:induction false} ReplaceAfterPrefix(x: string, pat: string, y: string, rep: string)
    requires pat != [] && pat[0] !in x
    ensures Replace(x + pat + y, pat, rep) == x + rep + Replace(y, pat, rep)
  {
    var s := x + pat + y;
    if x == [] {
      assert s[..|pat|] == pat;
      assert s[|pat|..] == y;
    } else {
      assert s[..|pat|] != pat by {
        assert s[..|pat|][0] == x[0] && x[0] in x;
      }
      calc {
        Replace(s, pat, rep);
        [x[0]] + Replace(s[1..], pat, rep);
        { assert s[1..] == x[1..] + pat + y;
          ReplaceAfterPrefix(x[1..], pat, y, rep); }
        [x[0]] + (x[1..] + rep + Replace(y, pat, rep));
        { assert [x[0]] + x[1..] == x; }
        x + rep + Replace(y, pat, rep);
      }
    }
  }

  /**
   * `s.split(sep)[0]`: the part of `s` before the first occurrence of `sep`,
   * or all of `s` when `sep` does not occur.
   */
  function BeforeFirst(s: string, sep: string): (r: string)
    requires sep != []
    ensures r <= s
    ensures forall i :: 0 <= i < |r| ==> !OccursAt(s, sep, i)
    ensures r == s || OccursAt(s, sep, |r|)
    decreases |s|
  {
    if |s| < |sep| then s
    else if s[..|sep|] == sep then []
    else
      var tail := BeforeFirst(s[1..], sep);
      assert forall i :: 1 <= i < 1 + |tail| ==> !OccursAt(s, sep, i) by {
        forall i | 1 <= i < 1 + |tail| ensures !OccursAt(s, sep, i) {
          assert !OccursAt(s[1..], sep, i - 1);
          if i + |sep| <= |s| {
            assert s[i..i + |sep|] == s[1..][i - 1..i - 1 + |sep|];
          }
        }
      }
      assert tail != s[1..] ==> OccursAt(s, sep, 1 + |tail|) by {
        if tail != s[1..] {
          assert s[1..][|tail|..|tail| + |sep|] == s[1 + |tail|..1 + |tail| + |sep|];
        }
      }
      [s[0]] + tail
  }

  /** When `sep` cannot start anywhere in `s`, the first piece is all of `s`. */
  lemma BeforeFirstAbsent(s: string, sep: string)
    requires sep != [] && sep[0] !in s
    ensures BeforeFirst(s, sep) == s
  {
  }

  /** The index just after the last `/` of `s`, or 0 when there is none. */
  function SegmentStart(s: string): (k: nat)
    ensures k <= |s|
    ensures forall i | k <= i < |s| :: s[i] != '/'
    ensures k == 0 || s[k - 1] == '/'
    decreases |s|
  {
    if s == [] then 0
    else if s[|s| - 1] == '/' then |s|
    else SegmentStart(s[..|s| - 1])
  }

  /**
   * `s.split('/')[-1]`: the part of `s` after its last `/`, or all of `s`
   * when it has none.
   */
  function LastSegment(s: string): (r: string)
    ensures |r| <= |s| && r == s[|s| - |r|..]
    ensures '/' !in r
    ensures r == s || s[|s| - |r| - 1] == '/'
  {
    s[SegmentStart(s)..]
  }

  /** The last segment after a prefix ending in `/` is the slash-free tail. */
  lemma LastSegmentAfterSlash(p: string, t: string)
    requires |p| > 0 && p[|p| - 1] == '/' && '/' !in t
    ensures LastSegment(p + t) == t
  {
    var s := p + t;
    var k := SegmentStart(s);
    assert s[|p| - 1] == '/';
    assert forall j | 0 <= j < |t| :: s[|p| + j] == t[j] && t[j] != '/';
    assert k == |p| by {
      if k < |p| {
        assert false;
      }
      if k > |p| {
        assert false;
      }
    }
    assert s[|p|..] == t;
  }

  /** `sep.join(parts)`. */
  function Join(sep: string, parts: seq<string>): string
    decreases |parts|
  {
    if parts == [] then ""
    else if |parts| == 1 then parts[0]
    else parts[0] + sep + Join(sep, parts[1..])
  }

  /** Joining one more part in front puts it and a separator before the rest. */
  lemma JoinCons(sep: string, x: string, rest: seq<string>)
    requires rest != []
    ensures Join(sep, [x] + rest) == x + sep + Join(sep, rest)
  {
    assert ([x] + rest)[1..] == rest;
  }

  /** A join of four parts, spelled out. */
  lemma Join4(sep: string, a: string, b: string, c: string, d: string)
    ensures Join(sep, [a, b, c, d]) == a + sep + (b + sep + (c + sep + d))
  {
    JoinCons(sep, c, [d]);
    assert [c] + [d] == [c, d];
    JoinCons(sep, b, [c, d]);
    assert [b] + [c, d] == [b, c, d];
    JoinCons(sep, a, [b, c, d]);
    assert [a] + [b, c, d] == [a, b, c, d];
  }

  /** A join of five parts, spelled out. */
  lemma Join5(sep: string, a: string, b: string, c: string, d: string, e: string)
    ensures Join(sep, [a, b, c, d, e]) == a + sep + (b + sep + (c + sep + (d + sep + e)))
  {
    Join4(sep, b, c, d, e);
    JoinCons(sep, a, [b, c, d, e]);
    assert [a] + [b, c, d, e] == [a, b, c, d, e];
  }

  /** A join is empty exactly when there is nothing to join or only one empty part. */
  lemma {:induction false} JoinEmpty(sep: string, parts: seq<string>)
    requires sep != []
    ensures Join(sep, parts) == "" <==> parts == [] || (|parts| == 1 && parts[0] == "")
  {
    if |parts| > 1 {
      assert |Join(sep, parts)| >= |sep|;
    }
  }

  /** A join of at least one part starts with the first part. */
  lemma {:induction false} JoinStartsWithFirst(sep: string, parts: seq<string>)
    requires parts != []
    ensures parts[0] <= Join(sep, parts)
  {
  }

  /** Replacing the separator character of a join re-joins with the new character. */
  lemma {:induction false} ReplaceCharJoin(words: seq<string>, c: char, d: char)
    requires forall k | 0 <= k < |words| :: c !in words[k]
    ensures Replace(Join([c], words), [c], [d]) == Join([d], words)
  {
    if |words| == 1 {
      ReplaceAbsent(words[0], [c], [d]);
    } else if |words| > 1 {
      ReplaceCharJoin(words[1..], c, d);
      ReplaceCharConcat(words[0] + [c], Join([c], words[1..]), c, d);
      ReplaceCharConcat(words[0], [c], c, d);
      ReplaceAbsent(words[0], [c], [d]);
      assert [c][..1] == [c];
    }
  }

  /** `s.endswith(t)`. */
  predicate EndsWith(s: string, t: string) {
    |t| <= |s| && s[|s| - |t|..] == t
  }
}
