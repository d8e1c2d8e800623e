/**
 * The three `java.lang.String` operations the metadata code relies on:
 * `equalsIgnoreCase`, `trim` and `split(",")`.
 */
module JavaStrings {

  /** ASCII case folding, enough for the fixed plugin key compared against. */
  function ToLowerAscii(c: char): (r: char)
    ensures 'A' <= c <= 'Z' ==> 'a' <= r <= 'z'
    ensures 'A' <= c <= 'Z' ==> r as int - 'a' as int == c as int - 'A' as int
    ensures !('A' <= c <= 'Z') ==> r == c
  {
    if 'A' <= c <= 'Z' then (c as int - 'A' as int + 'a' as int) as char else c
  }

  /** `s` with every ASCII upper-case letter folded to lower case. */
  function LowerAscii(s: string): (r: string)
    ensures |r| == |s|
  {
    seq(|s|, i requires 0 <= i < |s| => ToLowerAscii(s[i]))
  }

  /** `a.equalsIgnoreCase(b)`: equal lengths and equal characters after case folding. */
  predicate EqualsIgnoreCase(a: string, b: string)
  {
    |a| == |b| && forall i :: 0 <= i < |a| ==> ToLowerAscii(a[i]) == ToLowerAscii(b[i])
  }

  /** Two strings are equal ignoring case exactly when folding both whole strings makes them equal. */
  lemma EqualsIgnoreCaseIsFoldedEquality(a: string, b: string)
    ensures EqualsIgnoreCase(a, b) <==> LowerAscii(a) == LowerAscii(b)
  {
    if LowerAscii(a) == LowerAscii(b) {
      forall i | 0 <= i < |a| ensures ToLowerAscii(a[i]) == ToLowerAscii(b[i]) {
        assert LowerAscii(a)[i] == LowerAscii(b)[i];
      }
    }
  }

  /** Comparison ignoring case is an equivalence: reflexive, symmetric and transitive. */
  lemma EqualsIgnoreCaseEquivalence(a: string, b: string, c: string)
    ensures EqualsIgnoreCase(a, a)
    ensures EqualsIgnoreCase(a, b) == EqualsIgnoreCase(b, a)
    ensures EqualsIgnoreCase(a, b) && EqualsIgnoreCase(b, c) ==> EqualsIgnoreCase(a, c)
  {
  }

  // ---------------------------------------------------------------- trim

  /** The characters `String.trim` removes: every code point up to U+0020. */
  predicate IsTrimmable(c: char)
  {
    c <= ' '
  }

  predicate AllTrimmable(s: string)
  {
    forall k :: 0 <= k < |s| ==> IsTrimmable(s[k])
  }

  /** `s` is `pre + mid + post` with only trimmable characters in `pre` and `post`. */
  predicate Padded(s: string, pre: string, mid: string, post: string)
  {
    s == pre + mid + post && AllTrimmable(pre) && AllTrimmable(post)
  }

  /** `mid` neither starts nor ends with a trimmable character. */
  predicate Unpadded(mid: string)
  {
    mid == [] || (!IsTrimmable(mid[0]) && !IsTrimmable(mid[|mid| - 1]))
  }

  /** The number of trimmable characters at the start of `s`. */
  function LeadingCount(s: string): (n: nat)
    ensures n <= |s|
    ensures AllTrimmable(s[..n])
    ensures n < |s| ==> !IsTrimmable(s[n])
  {
    if |s| == 0 || !IsTrimmable(s[0]) then 0
    else
      var n := LeadingCount(s[1..]);
      assert s[..1 + n] == [s[0]] + s[1..][..n];
      1 + n
  }

  /** The number of trimmable characters at the end of `s`. */
  function TrailingCount(s: string): (n: nat)
    ensures n <= |s|
    ensures AllTrimmable(s[|s| - n..])
    ensures n < |s| ==> !IsTrimmable(s[|s| - 1 - n])
  {
    if |s| == 0 || !IsTrimmable(s[|s| - 1]) then 0
    else
      var init := s[..|s| - 1];
      var n := TrailingCount(init);
      assert s[|s| - 1 - n..] == init[|init| - n..] + [s[|s| - 1]];
      1 + n
  }

  /** `s.trim()`: `s` without its leading and trailing characters up to U+0020. */
  function Trim(s: string): (r: string)
    ensures LeadingCount(s) + |r| <= |s|
    ensures Unpadded(r)
    ensures r == s[LeadingCount(s)..LeadingCount(s) + |r|]
    ensures AllTrimmable(s[..LeadingCount(s)]) && AllTrimmable(s[LeadingCount(s) + |r|..])
  {
    var i := LeadingCount(s);
    if i == |s| then "" else s[i..|s| - TrailingCount(s)]
  }

  /** Leading trimmable characters are counted up to the first character that is not. */
  lemma {:induction false} LeadingCountIs(s: string, pre: string, rest: string)
    requires s == pre + rest && AllTrimmable(pre)
    requires rest == [] || !IsTrimmable(rest[0])
    ensures LeadingCount(s) == |pre|
  {
    if |pre| > 0 {
      assert s[1..] == pre[1..] + rest;
      LeadingCountIs(s[1..], pre[1..], rest);
    }
  }

  /** Trailing trimmable characters are counted back to the last character that is not. */
  lemma {:induction false} TrailingCountIs(s: string, rest: string, post: string)
    requires s == rest + post && AllTrimmable(post)
    requires rest == [] || !IsTrimmable(rest[|rest| - 1])
    ensures TrailingCount(s) == |post|
  {
    if |post| > 0 {
      assert s[..|s| - 1] == rest + post[..|post| - 1];
      TrailingCountIs(s[..|s| - 1], rest, post[..|post| - 1]);
    }
  }

  /** Trimming is determined by its contract: any unpadded core between trimmable ends is `Trim(s)`. */
  lemma TrimUnique(s: string, pre: string, mid: string, post: string)
    requires Padded(s, pre, mid, post) && Unpadded(mid)
    ensures Trim(s) == mid
  {
    if mid == [] {
      assert s == pre + post;
      LeadingCountIs(s, s, []);
    } else {
      assert s == pre + (mid + post);
      LeadingCountIs(s, pre, mid + post);
      assert s == (pre + mid) + post;
      TrailingCountIs(s, pre + mid, post);
      assert s[|pre|..|s| - |post|] == mid;
    }
  }

  /** Trimming adds no character: a character absent from `s` is absent from `Trim(s)`. */
  lemma TrimKeepsOut(s: string, c: char)
    requires c !in s
    ensures c !in Trim(s)
  {
    var t, n := Trim(s), LeadingCount(s);
    forall k | 0 <= k < |t| ensures t[k] != c {
      assert t[k] == s[n + k];
    }
  }

  /** Trimming twice is trimming once. */
  lemma TrimIdempotent(s: string)
    ensures Trim(Trim(s)) == Trim(s)
  {
    assert Padded(Trim(s), "", Trim(s), "");
    TrimUnique(Trim(s), "", Trim(s), "");
  }

  // ---------------------------------------------------------------- split

  /** The number of occurrences of `c` in `s`. */
  function Occurrences(s: string, c: char): (n: nat)
    ensures n <= |s|
    ensures n == 0 <==> c !in s
  {
    if |s| == 0 then 0 else (if s[0] == c then 1 else 0) + Occurrences(s[1..], c)
  }

  /** All the pieces of `s` between commas, trailing empty pieces included. */
  function Pieces(s: string): (r: seq<string>)
    ensures |r| == Occurrences(s, ',') + 1
    ensures forall i :: 0 <= i < |r| ==> ',' !in r[i]
  {
    if |s| == 0 then [""]
    else
      var rest := Pieces(s[1..]);
      if s[0] == ',' then [""] + rest else [[s[0]] + rest[0]] + rest[1..]
  }

  /** The pieces joined back together, one comma between neighbours. */
  function Join(ps: seq<string>): (r: string)
    requires |ps| > 0
  {
    if |ps| == 1 then ps[0] else ps[0] + "," + Join(ps[1..])
  }

  /** Splitting on commas loses nothing: joining the pieces gives back the input. */
  lemma {:induction false} JoinPieces(s: string)
    ensures Join(Pieces(s)) == s
  {
    if |s| > 0 {
      var rest := Pieces(s[1..]);
      JoinPieces(s[1..]);
      if s[0] == ',' {
        assert Pieces(s)[1..] == rest;
      } else if |rest| == 1 {
        assert s == [s[0]] + s[1..];
      } else {
        assert Pieces(s)[1..] == rest[1..];
        assert Join(rest) == rest[0] + "," + Join(rest[1..]);
        assert s == [s[0]] + s[1..];
      }
    }
  }

  /** A comma-free string is a single piece. */
  lemma {:induction false} PiecesOfCommaFree(s: string)
    requires ',' !in s
    ensures Pieces(s) == [s]
  {
    if |s| > 0 {
      assert ',' !in s[1..] by { assert forall k :: 0 <= k < |s[1..]| ==> s[1..][k] == s[k + 1]; }
      PiecesOfCommaFree(s[1..]);
      assert s == [s[0]] + s[1..];
    }
  }

  /** `ps` without its trailing empty strings. */
  function DropTrailingEmpty(ps: seq<string>): (r: seq<string>)
    ensures |r| <= |ps| && r == ps[..|r|]
    ensures forall i :: |r| <= i < |ps| ==> ps[i] == ""
    ensures r == [] || r[|r| - 1] != ""
  {
    if |ps| == 0 || ps[|ps| - 1] != "" then ps else DropTrailingEmpty(ps[..|ps| - 1])
  }

  /**
   * `s.split(",")`: when `s` has a comma, its pieces without the trailing
   * empty ones; when it has none, `s` itself as the only piece.
   */
  function Split(s: string): (r: seq<string>)
    ensures ',' !in s ==> r == [s]
    ensures ',' in s ==> r == [] || r[|r| - 1] != ""
    ensures |r| <= Occurrences(s, ',') + 1
    ensures forall i :: 0 <= i < |r| ==> ',' !in r[i]
  {
    if ',' !in s then PiecesOfCommaFree(s); [s] else DropTrailingEmpty(Pieces(s))
  }

  /** The result of `split(",")` is the pieces of `s` in order, and only empty pieces are left out. */
  lemma SplitKeepsPieces(s: string)
    ensures |Split(s)| <= |Pieces(s)| && Split(s) == Pieces(s)[..|Split(s)|]
    ensures forall i :: |Split(s)| <= i < |Pieces(s)| ==> Pieces(s)[i] == ""
  {
    if ',' !in s {
      PiecesOfCommaFree(s);
    }
  }
}
