/**
 * The Python `str` operations the script relies on, for a non-empty
 * separator: `split`, `replace` and `endswith`. Python scans left to right
 * and never lets two occurrences of the separator overlap; so do these.
 */
module PyStrings {

  predicate EndsWith(s: string, suffix: string)
  {
    |suffix| <= |s| && s[|s| - |suffix|..] == suffix
  }

  /** `sep` occurs in `s` starting at index `k`. */
  predicate OccursAt(s: string, sep: string, k: nat)
  {
    k <= |s| && sep <= s[k..]
  }

  /** Index of the first occurrence of `sep` in `s`, or `|s|` when there is none. */
  function Find(s: string, sep: string): (k: nat)
    requires |sep| > 0
    ensures k <= |s|
    ensures forall j :: 0 <= j < k ==> !OccursAt(s, sep, j)
    ensures k == |s| || OccursAt(s, sep, k)
    decreases |s|
  {
    if |s| == 0 || sep <= s then 0
    else
      var k := Find(s[1..], sep);
      assert s[0..] == s;
      assert forall j :: 0 < j <= |s| ==> s[j..] == s[1..][j - 1..];
      assert forall j :: 0 < j <= |s| ==> (OccursAt(s, sep, j) <==> OccursAt(s[1..], sep, j - 1));
      1 + k
  }

  /** Python's `s.split(sep)`. */
  function Split(s: string, sep: string): (r: seq<string>)
    requires |sep| > 0
    ensures |r| >= 1
    decreases |s|
  {
    if |s| == 0 then [""]
    else if sep <= s then [""] + Split(s[|sep|..], sep)
    else
      var t := Split(s[1..], sep);
      [[s[0]] + t[0]] + t[1..]
  }

  /** Python's `s.replace(pattern, with)`. */
  function Replace(s: string, pattern: string, with: string): string
    requires |pattern| > 0
    decreases |s|
  {
    if |s| == 0 then ""
    else if pattern <= s then with + Replace(s[|pattern|..], pattern, with)
    else [s[0]] + Replace(s[1..], pattern, with)
  }

  /** An occurrence in `s[1..]` is an occurrence in `s` one place later. */
  lemma OccursShift(s: string, sep: string, j: nat)
    requires j < |s|
    ensures OccursAt(s[1..], sep, j) <==> OccursAt(s, sep, j + 1)
  {
    assert s[1..][j..] == s[j + 1..];
  }

  /** With no occurrence of the separator the string is one piece. */
  lemma {:induction false} SplitWithout(s: string, sep: string)
    requires |sep| > 0
    requires forall j :: 0 <= j < |s| ==> !OccursAt(s, sep, j)
    ensures Split(s, sep) == [s]
    decreases |s|
  {
    if |s| > 0 {
      assert !OccursAt(s, sep, 0);
      assert s[0..] == s;
      forall j | 0 <= j < |s| - 1
        ensures !OccursAt(s[1..], sep, j)
      {
        OccursShift(s, sep, j);
      }
      SplitWithout(s[1..], sep);
      assert [s[0]] + s[1..] == s;
    }
  }

  /** Splitting cuts at the first occurrence of the separator and goes on
      with the text after it. */
  lemma {:induction false} SplitAtOccurrence(s: string, sep: string, k: nat)
    requires |sep| > 0 && k < |s|
    requires forall j :: 0 <= j < k ==> !OccursAt(s, sep, j)
    requires OccursAt(s, sep, k)
    ensures Split(s, sep) == [s[..k]] + Split(s[k + |sep|..], sep)
    decreases k
  {
    if k == 0 {
      assert s[0..] == s;
      assert s[..0] == "";
    } else {
      assert !OccursAt(s, sep, 0);
      assert s[0..] == s;
      forall j | 0 <= j < k - 1
        ensures !OccursAt(s[1..], sep, j)
      {
        OccursShift(s, sep, j);
      }
      OccursShift(s, sep, k - 1);
      var tail := s[k + |sep|..];
      assert s[1..][k - 1 + |sep|..] == tail;
      SplitAtOccurrence(s[1..], sep, k - 1);
      var t := Split(s[1..], sep);
      assert t[0] == s[1..][..k - 1] && t[1..] == Split(tail, sep);
      assert !(sep <= s);
      assert Split(s, sep) == [[s[0]] + t[0]] + t[1..];
      assert [s[0]] + s[1..][..k - 1] == s[..k];
    }
  }

  /** Splitting cuts at the first occurrence of the separator and goes on
      with the text after it; with no occurrence the string is one piece. */
  lemma SplitAtFirst(s: string, sep: string, k: nat)
    requires |sep| > 0 && k <= |s|
    requires forall j :: 0 <= j < k ==> !OccursAt(s, sep, j)
    requires k == |s| || OccursAt(s, sep, k)
    ensures k == |s| ==> Split(s, sep) == [s]
    ensures k < |s| ==> Split(s, sep) == [s[..k]] + Split(s[k + |sep|..], sep)
  {
    if k == |s| {
      SplitWithout(s, sep);
    } else {
      SplitAtOccurrence(s, sep, k);
    }
  }

  lemma SplitFirstPiece(s: string, sep: string)
    requires |sep| > 0
    ensures Split(s, sep)[0] == s[..Find(s, sep)]
  {
    var k := Find(s, sep);
    SplitAtFirst(s, sep, k);
    if k == |s| {
      assert s[..k] == s;
    }
  }

  lemma SplitPieceCount(s: string, sep: string)
    requires |sep| > 0
    ensures |Split(s, sep)| >= 2 <==> Find(s, sep) < |s|
  {
    SplitAtFirst(s, sep, Find(s, sep));
  }

  lemma SplitOtherPieces(s: string, sep: string)
    requires |sep| > 0
    ensures Find(s, sep) < |s| ==> Split(s, sep)[1..] == Split(s[Find(s, sep) + |sep|..], sep)
  {
    var k := Find(s, sep);
    if k < |s| {
      var rest := Split(s[k + |sep|..], sep);
      SplitAtOccurrence(s, sep, k);
      DropFirstPiece(Split(s, sep), s[..k], rest);
    }
  }

  /** The pieces after the first. */
  lemma DropFirstPiece(parts: seq<string>, first: string, rest: seq<string>)
    requires parts == [first] + rest
    ensures parts[1..] == rest
  {
    assert ([first] + rest)[1..] == rest;
  }

  /** The first piece of `s.split(sep)` is the text before the first occurrence
      of `sep`; there is a second piece exactly when `sep` occurs, and the other
      pieces are the split of what follows that occurrence. */
  lemma SplitHead(s: string, sep: string)
    requires |sep| > 0
    ensures Split(s, sep)[0] == s[..Find(s, sep)]
    ensures |Split(s, sep)| >= 2 <==> Find(s, sep) < |s|
    ensures Find(s, sep) < |s| ==> Split(s, sep)[1..] == Split(s[Find(s, sep) + |sep|..], sep)
  {
    SplitFirstPiece(s, sep);
    SplitPieceCount(s, sep);
    SplitOtherPieces(s, sep);
  }

  /** With no occurrence of the pattern, `replace` leaves the string as it is. */
  lemma {:induction false} ReplaceWithout(s: string, pattern: string, with: string)
    requires |pattern| > 0
    requires forall j :: 0 <= j < |s| ==> !OccursAt(s, pattern, j)
    ensures Replace(s, pattern, with) == s
    decreases |s|
  {
    if |s| > 0 {
      assert !OccursAt(s, pattern, 0);
      assert s[0..] == s;
      forall j | 0 <= j < |s| - 1
        ensures !OccursAt(s[1..], pattern, j)
      {
        OccursShift(s, pattern, j);
      }
      ReplaceWithout(s[1..], pattern, with);
      assert [s[0]] + s[1..] == s;
    }
  }

  /** The text before the first `k` positions, where no occurrence of the
      pattern starts, is copied as it is. */
  lemma {:induction false} ReplaceKeepsPrefix(s: string, pattern: string, with: string, k: nat)
    requires |pattern| > 0 && k <= |s|
    requires forall j :: 0 <= j < k ==> !OccursAt(s, pattern, j)
    ensures Replace(s, pattern, with) == s[..k] + Replace(s[k..], pattern, with)
    decreases k
  {
    if k == 0 {
      assert s[..0] == "" && s[0..] == s;
    } else {
      assert !OccursAt(s, pattern, 0);
      assert s[0..] == s;
      forall j | 0 <= j < k - 1
        ensures !OccursAt(s[1..], pattern, j)
      {
        OccursShift(s, pattern, j);
      }
      ReplaceKeepsPrefix(s[1..], pattern, with, k - 1);
      var head, r := s[1..][..k - 1], Replace(s[k..], pattern, with);
      assert s[1..][k - 1..] == s[k..];
      assert Replace(s, pattern, with) == [s[0]] + (head + r);
      assert [s[0]] + (head + r) == ([s[0]] + head) + r;
      assert [s[0]] + head == s[..k];
    }
  }

  /** `replace` keeps the text before the first occurrence, puts `with` in
      place of it and goes on with the text after it. */
  lemma ReplaceAtOccurrence(s: string, pattern: string, with: string, k: nat)
    requires |pattern| > 0 && k < |s|
    requires forall j :: 0 <= j < k ==> !OccursAt(s, pattern, j)
    requires OccursAt(s, pattern, k)
    ensures Replace(s, pattern, with) == s[..k] + with + Replace(s[k + |pattern|..], pattern, with)
  {
    ReplaceKeepsPrefix(s, pattern, with, k);
    var q, tail := s[k..], s[k + |pattern|..];
    assert q[|pattern|..] == tail;
    assert Replace(q, pattern, with) == with + Replace(tail, pattern, with);
    assert s[..k] + (with + Replace(tail, pattern, with)) == s[..k] + with + Replace(tail, pattern, with);
  }

  /** `s.replace(pattern, with)` replaces the first occurrence of `pattern` and
      then every occurrence in what follows it; with none, `s` is unchanged. */
  lemma ReplaceAtFirst(s: string, pattern: string, with: string)
    requires |pattern| > 0
    ensures Find(s, pattern) == |s| ==> Replace(s, pattern, with) == s
    ensures Find(s, pattern) < |s| ==>
      Replace(s, pattern, with) == s[..Find(s, pattern)] + with + Replace(s[Find(s, pattern) + |pattern|..], pattern, with)
  {
    var k := Find(s, pattern);
    if k == |s| {
      ReplaceWithout(s, pattern, with);
    } else {
      var rest := Replace(s[k + |pattern|..], pattern, with);
      ReplaceAtOccurrence(s, pattern, with, k);
      assert Replace(s, pattern, with) == s[..k] + with + rest;
    }
  }

  /** Splitting on a one-character separator that does not occur in `p`
      cuts `p + [c] + rest` right after `p`. */
  lemma {:induction false} SplitAfterPiece(p: string, c: char, rest: string)
    requires forall i :: 0 <= i < |p| ==> p[i] != c
    ensures Split(p + [c] + rest, [c]) == [p] + Split(rest, [c])
    decreases |p|
  {
    var s := p + [c] + rest;
    if p == [] {
      assert [c] <= s;
      assert s[1..] == rest;
    } else {
      assert !([c] <= s) by { assert s[0] == p[0]; }
      assert s[1..] == p[1..] + [c] + rest;
      SplitAfterPiece(p[1..], c, rest);
      assert [p[0]] + p[1..] == p;
    }
  }

  /** `replace` leaves a string alone when the first character of the
      pattern never occurs in it. */
  lemma {:induction false} ReplaceWithoutLead(s: string, pattern: string, with: string)
    requires |pattern| > 0
    requires forall i :: 0 <= i < |s| ==> s[i] != pattern[0]
    ensures Replace(s, pattern, with) == s
    decreases |s|
  {
    if |s| > 0 {
      assert !(pattern <= s) by {
        assert s[0] != pattern[0];
        if |pattern| <= |s| {
          assert s[..|pattern|][0] == s[0];
        }
      }
      ReplaceWithoutLead(s[1..], pattern, with);
      assert [s[0]] + s[1..] == s;
    }
  }
}
