/** Splitting, joining, filtering and trimming of strings. */
module Text {

  /** The pieces between the characters that satisfy `sep`; always at least one. */
  function Split(s: string, sep: char -> bool): (r: seq<string>)
    ensures |r| > 0
  {
    if |s| == 0 then [""]
    else
      var front := Split(s[..|s| - 1], sep);
      var c := s[|s| - 1];
      if sep(c) then front + [""] else front[..|front| - 1] + [front[|front| - 1] + [c]]
  }

  function Join(parts: seq<string>, sep: string): string {
    if |parts| == 0 then ""
    else if |parts| == 1 then parts[0]
    else Join(parts[..|parts| - 1], sep) + sep + parts[|parts| - 1]
  }

  function Filter(s: string, keep: char -> bool): string {
    if |s| == 0 then ""
    else
      var front := Filter(s[..|s| - 1], keep);
      if keep(s[|s| - 1]) then front + [s[|s| - 1]] else front
  }

  function TrimLeft(s: string, cut: char -> bool): (r: string)
    ensures |r| > 0 ==> !cut(r[0])
    ensures |s| > 0 && !cut(s[0]) ==> r == s
  {
    if |s| > 0 && cut(s[0]) then TrimLeft(s[1..], cut) else s
  }

  function TrimRight(s: string, cut: char -> bool): (r: string)
    ensures r <= s
    ensures |r| > 0 ==> !cut(r[|r| - 1])
    ensures |s| > 0 && !cut(s[|s| - 1]) ==> r == s
  {
    if |s| > 0 && cut(s[|s| - 1]) then TrimRight(s[..|s| - 1], cut) else s
  }

  function Trim(s: string, cut: char -> bool): string {
    TrimRight(TrimLeft(s, cut), cut)
  }

  /** Trimming takes cut characters off both ends, and as many as it can. */
  lemma {:induction false} TrimTakesEnds(s: string, cut: char -> bool) returns (left: string, right: string)
    ensures s == left + Trim(s, cut) + right && All(left, cut) && All(right, cut)
    ensures var t := Trim(s, cut); t != "" ==> !cut(t[0]) && !cut(t[|t| - 1])
  {
    left := TrimLeftTakes(s, cut);
    right := TrimRightTakes(TrimLeft(s, cut), cut);
  }

  lemma {:induction false} TrimLeftTakes(s: string, cut: char -> bool) returns (left: string)
    ensures s == left + TrimLeft(s, cut) && All(left, cut)
  {
    if |s| > 0 && cut(s[0]) {
      left := TrimLeftTakes(s[1..], cut);
      left := [s[0]] + left;
    } else {
      left := "";
    }
  }

  lemma {:induction false} TrimRightTakes(s: string, cut: char -> bool) returns (right: string)
    ensures s == TrimRight(s, cut) + right && All(right, cut)
  {
    if |s| > 0 && cut(s[|s| - 1]) {
      right := TrimRightTakes(s[..|s| - 1], cut);
      right := right + [s[|s| - 1]];
    } else {
      right := "";
    }
  }

  lemma {:induction false} FilterAppend(s: string, t: string, keep: char -> bool)
    ensures Filter(s + t, keep) == Filter(s, keep) + Filter(t, keep)
  {
    if |t| == 0 {
      assert s + t == s;
    } else {
      assert (s + t)[..|s + t| - 1] == s + t[..|t| - 1];
      FilterAppend(s, t[..|t| - 1], keep);
    }
  }

  // ---- Which characters remain ----

  predicate Free(s: string, sep: char -> bool) {
    forall i | 0 <= i < |s| :: !sep(s[i])
  }

  predicate All(s: string, ok: char -> bool) {
    forall i | 0 <= i < |s| :: ok(s[i])
  }

  lemma {:induction false} FilterChars(s: string, keep: char -> bool, ok: char -> bool)
    requires All(s, ok)
    ensures All(Filter(s, keep), ok) && All(Filter(s, keep), keep)
  {
    if |s| > 0 {
      FilterChars(s[..|s| - 1], keep, ok);
    }
  }

  lemma {:induction false} FilterNothing(s: string, keep: char -> bool)
    requires All(s, keep)
    ensures Filter(s, keep) == s
  {
    if |s| > 0 {
      FilterNothing(s[..|s| - 1], keep);
      assert s == s[..|s| - 1] + [s[|s| - 1]];
    }
  }

  lemma {:induction false} TrimChars(s: string, cut: char -> bool, ok: char -> bool)
    requires All(s, ok)
    ensures All(Trim(s, cut), ok)
  {
    TrimLeftChars(s, cut, ok);
  }

  lemma {:induction false} TrimLeftChars(s: string, cut: char -> bool, ok: char -> bool)
    requires All(s, ok)
    ensures All(TrimLeft(s, cut), ok)
  {
    if |s| > 0 && cut(s[0]) {
      TrimLeftChars(s[1..], cut, ok);
    }
  }

  lemma {:induction false} FilterSnoc(t: string, c: char, keep: char -> bool)
    ensures Filter(t + [c], keep) == if keep(c) then Filter(t, keep) + [c] else Filter(t, keep)
  {
    assert (t + [c])[..|t|] == t;
  }

  lemma {:induction false} TrimNothing(s: string, cut: char -> bool)
    requires |s| > 0 ==> !cut(s[0]) && !cut(s[|s| - 1])
    ensures Trim(s, cut) == s
  {
  }

  predicate AllFree(parts: seq<string>, sep: char -> bool) {
    forall i | 0 <= i < |parts| :: Free(parts[i], sep)
  }

  lemma {:induction false} SplitFree(s: string, sep: char -> bool)
    ensures AllFree(Split(s, sep), sep)
  {
    if |s| > 0 {
      SplitFree(s[..|s| - 1], sep);
    }
  }

  lemma {:induction false} SplitWhole(s: string, sep: char -> bool)
    requires Free(s, sep)
    ensures Split(s, sep) == [s]
  {
    if |s| == 0 {
      assert s == "";
    } else {
      var n := |s| - 1;
      SplitWhole(s[..n], sep);
      assert s == s[..n] + [s[n]];
    }
  }

  /** Splitting around one separator. */
  lemma {:induction false} SplitAppend(s: string, c: char, t: string, sep: char -> bool)
    requires sep(c) && Free(t, sep)
    ensures Split(s + [c] + t, sep) == Split(s, sep) + [t]
  {
    var all := s + [c] + t;
    if |t| == 0 {
      assert all[..|all| - 1] == s;
    } else {
      var n := |t| - 1;
      assert all[..|all| - 1] == s + [c] + t[..n];
      SplitAppend(s, c, t[..n], sep);
      assert t == t[..n] + [t[n]];
    }
  }

  /** Splitting undoes joining, for parts without separators. */
  lemma {:induction false} SplitJoin(parts: seq<string>, c: char, sep: char -> bool)
    requires |parts| > 0 && sep(c) && AllFree(parts, sep)
    ensures Split(Join(parts, [c]), sep) == parts
  {
    var n := |parts| - 1;
    if n == 0 {
      SplitWhole(parts[0], sep);
    } else {
      SplitJoin(parts[..n], c, sep);
      SplitAppend(Join(parts[..n], [c]), c, parts[n], sep);
    }
  }

  lemma {:induction false} JoinSnoc(parts: seq<string>, part: string, sep: string)
    ensures Join(parts + [part], sep) == if |parts| == 0 then part else Join(parts, sep) + sep + part
  {
    assert (parts + [part])[..|parts|] == parts;
  }

  /** Every character of a join comes from a part or the separator. */
  lemma {:induction false} JoinChars(parts: seq<string>, sep: string, ok: char -> bool)
    requires forall i | 0 <= i < |sep| :: ok(sep[i])
    requires forall i | 0 <= i < |parts| :: forall k | 0 <= k < |parts[i]| :: ok(parts[i][k])
    ensures forall k | 0 <= k < |Join(parts, sep)| :: ok(Join(parts, sep)[k])
  {
    if |parts| > 1 {
      JoinChars(parts[..|parts| - 1], sep, ok);
    }
  }

  /** A join of non-empty parts begins with the first part and ends with the last. */
  lemma {:induction false} JoinEnds(parts: seq<string>, sep: string)
    requires |parts| > 0 && forall i | 0 <= i < |parts| :: parts[i] != ""
    ensures var j := Join(parts, sep);
            && j != "" && j[0] == parts[0][0]
            && j[|j| - 1] == parts[|parts| - 1][|parts[|parts| - 1]| - 1]
  {
    if |parts| > 1 {
      JoinEnds(parts[..|parts| - 1], sep);
    }
  }
}
