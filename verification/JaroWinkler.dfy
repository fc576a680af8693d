/** Jaro-Winkler similarity: greedy matching of characters inside a window, with one flag array for each
    string, and a score over the matched characters. Floats are reals. */
module JaroWinkler {
  import opened Options

  function Max(a: nat, b: nat): nat {
    if a < b then b else a
  }

  function Min(a: nat, b: nat): nat {
    if a < b then a else b
  }

  function MatchDistance(len1: nat, len2: nat): nat {
    if Max(len1, len2) / 2 < 1 then 0 else Max(len1, len2) / 2 - 1
  }

  function Start(i: nat, distance: nat): nat {
    if i < distance then 0 else i - distance
  }

  predicate Near(i: nat, j: nat, distance: nat) {
    -(distance as int) <= j - i <= distance
  }

  /** Both characters stand at the same place, or their distance, counted with both ends, is at most half of the
      longer length. */
  predicate InWindow(s1: string, s2: string, i: nat, j: nat) {
    var apart := if i < j then j - i else i - j;
    apart == 0 || 2 * (apart + 1) <= |s1| || 2 * (apart + 1) <= |s2|
  }

  lemma WindowIsNear(s1: string, s2: string, i: nat, j: nat)
    ensures InWindow(s1, s2, i, j) <==> Near(i, j, MatchDistance(|s1|, |s2|))
  {
  }

  /** The first free character of `s2` in the window, from `j` on, that equals the `i`th of `s1`. */
  function Pick(s1: string, s2: string, i: nat, taken: seq<bool>, j: nat): (found: Option<nat>)
    requires i < |s1| && |taken| == |s2|
    ensures found.Some? ==>
      j <= found.value < |s2| && !taken[found.value] && s1[i] == s2[found.value]
    ensures found.Some? ==> found.value <= i + MatchDistance(|s1|, |s2|)
    ensures forall m :: j <= m < (if found.Some? then found.value else |s2|) && m <= i + MatchDistance(|s1|, |s2|) ==>
      taken[m] || s1[i] != s2[m]
    decreases |s2| - j
  {
    if j >= Min(i + MatchDistance(|s1|, |s2|) + 1, |s2|) then None
    else if taken[j] || s1[i] != s2[j] then Pick(s1, s2, i, taken, j + 1)
    else Some(j)
  }

  datatype Marks = Marks(first: seq<bool>, second: seq<bool>)

  function NoMarks(s1: string, s2: string): Marks {
    Marks(seq(|s1|, _ => false), seq(|s2|, _ => false))
  }

  /** The flags once the first `n` characters of `s1` have looked for a partner. */
  function Marked(s1: string, s2: string, n: nat): (m: Marks)
    requires n <= |s1|
    ensures |m.first| == |s1| && |m.second| == |s2|
    ensures forall i :: n <= i < |s1| ==> !m.first[i]
  {
    if n == 0 then NoMarks(s1, s2)
    else
      var m := Marked(s1, s2, n - 1);
      match Pick(s1, s2, n - 1, m.second, Start(n - 1, MatchDistance(|s1|, |s2|)))
      case None => m
      case Some(j) => Marks(m.first[n - 1 := true], m.second[j := true])
  }

  function Matched(s1: string, s2: string): (m: Marks)
    ensures |m.first| == |s1| && |m.second| == |s2|
  {
    Marked(s1, s2, |s1|)
  }

  /** The characters that carry a flag, in order. */
  function Selected(s: string, flags: seq<bool>): string
    requires |s| == |flags|
  {
    if s == [] then [] else (if flags[0] then [s[0]] else []) + Selected(s[1..], flags[1..])
  }

  function Mismatches(a: string, b: string): (n: nat)
    requires |a| == |b|
    ensures n <= |a|
    ensures n == 0 <==> a == b
  {
    if a == [] then 0
    else
      var rest := Mismatches(a[1..], b[1..]);
      assert a == [a[0]] + a[1..] && b == [b[0]] + b[1..];
      (if a[0] != b[0] then 1 else 0) + rest
  }

  ghost function Differing(a: string, b: string): set<int>
    requires |a| == |b|
  {
    set i | 0 <= i < |a| && a[i] != b[i]
  }

  /** The count is the number of places at which the two differ. */
  lemma {:induction false} MismatchesCount(a: string, b: string)
    requires |a| == |b|
    ensures Mismatches(a, b) == |Differing(a, b)|
    decreases |a|
  {
    if a != [] {
      var n := |a| - 1;
      MismatchesCount(a[..n], b[..n]);
      MismatchesSnoc(a[..n], b[..n], a[n], b[n]);
      assert a == a[..n] + [a[n]] && b == b[..n] + [b[n]];
      assert Differing(a, b) == Differing(a[..n], b[..n]) + if a[n] != b[n] then {n} else {};
    } else {
      assert Differing(a, b) == {};
    }
  }

  lemma {:induction false} MismatchesSnoc(a: string, b: string, x: char, y: char)
    requires |a| == |b|
    ensures Mismatches(a + [x], b + [y]) == Mismatches(a, b) + if x != y then 1 else 0
    decreases |a|
  {
    if a == [] {
      assert a + [x] == [x] && b + [y] == [y];
      assert [x][1..] == [] && [y][1..] == [];
    } else {
      assert (a + [x])[1..] == a[1..] + [x] && (b + [y])[1..] == b[1..] + [y];
      MismatchesSnoc(a[1..], b[1..], x, y);
    }
  }

  /** The length of the common prefix, at most four. */
  function CommonPrefix(s1: string, s2: string, from: nat): (n: nat)
    requires from <= 4
    ensures from <= n <= 4 && (n > from ==> n <= |s1| && n <= |s2|)
    ensures forall i :: from <= i < n ==> s1[i] == s2[i]
    ensures n < 4 && n < |s1| && n < |s2| ==> s1[n] != s2[n]
    decreases 4 - from
  {
    if from >= 4 || from >= |s1| || from >= |s2| || s1[from] != s2[from] then from
    else CommonPrefix(s1, s2, from + 1)
  }

  function Jaro(len1: nat, len2: nat, matches: nat, transpositions: nat): real
    requires len1 > 0 && len2 > 0 && matches > 0
  {
    (matches as real / len1 as real + matches as real / len2 as real
     + (matches as real - transpositions as real / 2.0) / matches as real) / 3.0
  }

  function Winkler(jaro: real, prefix: nat): real {
    jaro + prefix as real * 0.1 * (1.0 - jaro)
  }

  /** The similarity of two strings. */
  function Similarity(s1: string, s2: string): real {
    var m := Matched(s1, s2);
    var a, b := Selected(s1, m.first), Selected(s2, m.second);
    SelectedSameLetters(s1, s2, |s1|);
    SelectedLength(s1, m.first);
    if s1 == s2 then 1.0
    else if a == [] then 0.0
    else Winkler(Jaro(|s1|, |s2|, |a|, Mismatches(a, b)), CommonPrefix(s1, s2, 0))
  }

  // ---- the matched characters -------------------------------------------------------------------

  lemma {:induction false} SelectedLength(s: string, flags: seq<bool>)
    requires |s| == |flags|
    ensures |Selected(s, flags)| <= |s|
    ensures |Selected(s, flags)| == |s| ==> Selected(s, flags) == s
    ensures (exists i :: 0 <= i < |flags| && flags[i]) <==> Selected(s, flags) != []
  {
    if s != [] {
      SelectedLength(s[1..], flags[1..]);
      assert s == [s[0]] + s[1..];
      assert forall i :: 1 <= i < |flags| ==> flags[i] == flags[1..][i - 1];
      if Selected(s[1..], flags[1..]) != [] {
        var i :| 0 <= i < |flags| - 1 && flags[1..][i];
        assert flags[i + 1];
      }
    }
  }

  lemma {:induction false} NothingSelected(s: string, flags: seq<bool>)
    requires |s| == |flags| && forall i :: 0 <= i < |flags| ==> !flags[i]
    ensures Selected(s, flags) == []
  {
    if s != [] {
      NothingSelected(s[1..], flags[1..]);
    }
  }

  lemma Grows(head: string, rest: string, more: string, c: char)
    requires multiset(more) == multiset(rest) + multiset{c}
    ensures multiset(head + more) == multiset(head + rest) + multiset{c}
  {
  }

  lemma {:induction false} SelectOneMore(s: string, flags: seq<bool>, i: nat)
    requires |s| == |flags| && i < |s| && !flags[i]
    ensures multiset(Selected(s, flags[i := true])) == multiset(Selected(s, flags)) + multiset{s[i]}
    ensures |Selected(s, flags[i := true])| == |Selected(s, flags)| + 1
  {
    if i == 0 {
      assert flags[i := true][1..] == flags[1..];
    } else {
      SelectOneMore(s[1..], flags[1..], i - 1);
      assert flags[i := true][1..] == flags[1..][i - 1 := true];
      assert s[1..][i - 1] == s[i];
      var head := if flags[0] then [s[0]] else [];
      Grows(head, Selected(s[1..], flags[1..]), Selected(s[1..], flags[1..][i - 1 := true]), s[i]);
    }
  }

  /** The matched characters of one string are a permutation of those of the other. */
  lemma {:induction false} SelectedSameLetters(s1: string, s2: string, n: nat)
    requires n <= |s1|
    ensures var m := Marked(s1, s2, n);
      && multiset(Selected(s1, m.first)) == multiset(Selected(s2, m.second))
      && |Selected(s1, m.first)| == |Selected(s2, m.second)|
  {
    hide Selected;
    if n == 0 {
      NothingSelected(s1, NoMarks(s1, s2).first);
      NothingSelected(s2, NoMarks(s1, s2).second);
    } else {
      SelectedSameLetters(s1, s2, n - 1);
      var m := Marked(s1, s2, n - 1);
      var found := Pick(s1, s2, n - 1, m.second, Start(n - 1, MatchDistance(|s1|, |s2|)));
      if found.Some? {
        SelectOneMore(s1, m.first, n - 1);
        SelectOneMore(s2, m.second, found.value);
      }
    }
  }

  /** Greedy matching is maximal: two characters left over inside the window are different. */
  lemma {:induction false} MatchingIsMaximal(s1: string, s2: string, n: nat, i: nat, j: nat)
    requires i < n <= |s1| && j < |s2| && InWindow(s1, s2, i, j)
    ensures var m := Marked(s1, s2, n);
      !m.first[i] && !m.second[j] ==> s1[i] != s2[j]
  {
    WindowIsNear(s1, s2, i, j);
    if i < n - 1 {
      MatchingIsMaximal(s1, s2, n - 1, i, j);
    }
  }

  /** No characters match exactly when no two equal ones are inside the window. */
  lemma {:induction false} NoMatchMeansApart(s1: string, s2: string)
    ensures Selected(s1, Matched(s1, s2).first) == [] <==>
      forall i, j :: 0 <= i < |s1| && 0 <= j < |s2| && InWindow(s1, s2, i, j) ==> s1[i] != s2[j]
  {
    var m := Matched(s1, s2);
    SelectedLength(s1, m.first);
    SelectedLength(s2, m.second);
    SelectedSameLetters(s1, s2, |s1|);
    if Selected(s1, m.first) == [] {
      forall i, j | 0 <= i < |s1| && 0 <= j < |s2| && InWindow(s1, s2, i, j)
        ensures s1[i] != s2[j]
      {
        MatchingIsMaximal(s1, s2, |s1|, i, j);
      }
    }
    if forall i, j :: 0 <= i < |s1| && 0 <= j < |s2| && InWindow(s1, s2, i, j) ==> s1[i] != s2[j] {
      forall i, j | 0 <= i < |s1| && 0 <= j < |s2| && Near(i, j, MatchDistance(|s1|, |s2|))
        ensures s1[i] != s2[j]
      {
        WindowIsNear(s1, s2, i, j);
      }
      ApartMeansNoMatch(s1, s2, |s1|);
      NothingSelected(s1, m.first);
    }
  }

  lemma {:induction false} ApartMeansNoMatch(s1: string, s2: string, n: nat)
    requires n <= |s1|
    requires forall i, j :: 0 <= i < |s1| && 0 <= j < |s2| && Near(i, j, MatchDistance(|s1|, |s2|)) ==> s1[i] != s2[j]
    ensures Marked(s1, s2, n) == NoMarks(s1, s2)
  {
    if n > 0 {
      ApartMeansNoMatch(s1, s2, n - 1);
      var found := Pick(s1, s2, n - 1, NoMarks(s1, s2).second, Start(n - 1, MatchDistance(|s1|, |s2|)));
      if found.Some? {
        assert Near(n - 1, found.value, MatchDistance(|s1|, |s2|));
      }
    }
  }

  // ---- bounds -----------------------------------------------------------------------------------

  lemma Ratio(part: real, whole: real)
    requires 0.0 <= part <= whole && whole > 0.0
    ensures 0.0 <= part / whole <= 1.0
    ensures part / whole == 1.0 ==> part == whole
    ensures part > 0.0 ==> part / whole > 0.0
  {
  }

  lemma JaroBounds(len1: nat, len2: nat, matches: nat, transpositions: nat)
    requires 0 < matches <= len1 && matches <= len2 && transpositions <= matches
    ensures 0.0 < Jaro(len1, len2, matches, transpositions) <= 1.0
    ensures Jaro(len1, len2, matches, transpositions) == 1.0 ==>
      matches == len1 == len2 && transpositions == 0
  {
    Ratio(matches as real, len1 as real);
    Ratio(matches as real, len2 as real);
    Ratio(matches as real - transpositions as real / 2.0, matches as real);
  }

  lemma WinklerBounds(jaro: real, prefix: nat)
    requires 0.0 < jaro < 1.0 && prefix <= 4
    ensures jaro <= Winkler(jaro, prefix) < 1.0
  {
    var rest := 1.0 - jaro;
    match prefix
    case 0 => assert Winkler(jaro, prefix) == jaro;
    case 1 => assert Winkler(jaro, prefix) == jaro + 0.1 * rest;
    case 2 => assert Winkler(jaro, prefix) == jaro + 0.2 * rest;
    case 3 => assert Winkler(jaro, prefix) == jaro + 0.3 * rest;
    case _ => assert Winkler(jaro, prefix) == jaro + 0.4 * rest;
  }

  /** The bonus takes a tenth of the remaining distance away for every character of the common prefix. */
  lemma BonusShrinksDistance(jaro: real, prefix: nat)
    ensures 1.0 - Winkler(jaro, prefix) == (1.0 - jaro) * (10 - prefix) as real / 10.0
  {
    var p, rest := prefix as real, 1.0 - jaro;
    assert (10 - prefix) as real == 10.0 - p;
    assert rest * (10.0 - p) == rest * 10.0 - rest * p;
    assert p * 0.1 * rest == rest * p / 10.0;
  }

  /** More matches and fewer transpositions never lower the score, and raise it where they differ. */
  lemma JaroOrders(len1: nat, len2: nat, m1: nat, t1: nat, m2: nat, t2: nat)
    requires len1 > 0 && len2 > 0 && 0 < m1 <= m2 && t2 <= t1
    ensures Jaro(len1, len2, m1, t1) <= Jaro(len1, len2, m2, t2)
    ensures m1 < m2 || t2 < t1 ==> Jaro(len1, len2, m1, t1) < Jaro(len1, len2, m2, t2)
  {
    OrderedQuotients(m1 as real, m2 as real, len1 as real);
    OrderedQuotients(m1 as real, m2 as real, len2 as real);
    InOrder(m1 as real, t1 as real, m2 as real, t2 as real);
  }

  /** Each mismatched pair costs a sixth of its share in the matches; when one string matches as a whole and in
      order, only the share of the other one in the lengths is missing from 1. */
  lemma TranspositionCosts(len1: nat, len2: nat, matches: nat, transpositions: nat)
    requires len1 > 0 && len2 > 0 && matches > 0
    ensures Jaro(len1, len2, matches, transpositions)
      == Jaro(len1, len2, matches, 0) - transpositions as real / (6.0 * matches as real)
    ensures Jaro(len1, len2, len1, 0) == (2.0 + len1 as real / len2 as real) / 3.0
    ensures Jaro(len1, len2, len2, 0) == (2.0 + len2 as real / len1 as real) / 3.0
  {
    var t := transpositions as real;
    Thirds(len1, len2, matches, transpositions);
    Thirds(len1, len2, matches, 0);
    Thirds(len1, len2, len1, 0);
    Thirds(len1, len2, len2, 0);
    Sixth(t, matches as real);
    Itself(len1 as real);
    Itself(len2 as real);
    hide Jaro;
  }

  lemma Thirds(len1: nat, len2: nat, matches: nat, transpositions: nat)
    requires len1 > 0 && len2 > 0 && matches > 0
    ensures var m, h := matches as real, transpositions as real / 2.0;
      Jaro(len1, len2, matches, transpositions)
      == m / len1 as real / 3.0 + m / len2 as real / 3.0 + 1.0 / 3.0 - h / m / 3.0
    ensures transpositions == 0 ==>
      Jaro(len1, len2, matches, transpositions)
      == matches as real / len1 as real / 3.0 + matches as real / len2 as real / 3.0 + 1.0 / 3.0
  {
    Share(matches as real, transpositions as real / 2.0);
    Itself(matches as real);
  }

  lemma Itself(x: real)
    requires x > 0.0
    ensures x / x == 1.0 && 0.0 / x == 0.0
  {
  }

  lemma Sixth(t: real, m: real)
    requires m > 0.0
    ensures t / 2.0 / m / 3.0 == t / (6.0 * m)
  {
    var x := t / (6.0 * m);
    assert x * (6.0 * m) == t;
    assert (x * 3.0) * m == t / 2.0;
    assert t / 2.0 / m == x * 3.0;
  }

  /** The textbook pair of six letters with one swap. */
  lemma MarthaAndMarhta()
    ensures Winkler(Jaro(6, 6, 6, 2), 3) == 173.0 / 180.0
  {
  }

  lemma OrderedQuotients(x: real, y: real, d: real)
    requires d > 0.0 && x <= y
    ensures x / d <= y / d && (x < y ==> x / d < y / d)
  {
    assert (y - x) / d >= 0.0;
    assert x < y ==> (y - x) / d > 0.0;
    assert y / d == x / d + (y - x) / d;
  }

  /** The share of matched pairs in order. */
  lemma InOrder(m1: real, t1: real, m2: real, t2: real)
    requires 0.0 < m1 <= m2 && 0.0 <= t2 <= t1
    ensures (m1 - t1 / 2.0) / m1 <= (m2 - t2 / 2.0) / m2
    ensures t2 < t1 ==> (m1 - t1 / 2.0) / m1 < (m2 - t2 / 2.0) / m2
  {
    var h1, h2 := t1 / 2.0, t2 / 2.0;
    OrderedQuotients(h2, h1, m1);
    SmallerShare(h2, m1, m2);
    assert (m1 - h1) / m1 == 1.0 - h1 / m1 by { Share(m1, h1); }
    assert (m2 - h2) / m2 == 1.0 - h2 / m2 by { Share(m2, h2); }
  }

  lemma Share(m: real, h: real)
    requires m > 0.0
    ensures (m - h) / m == 1.0 - h / m
  {
    assert (m - h) / m + h / m == m / m;
  }

  lemma SmallerShare(h: real, m1: real, m2: real)
    requires h >= 0.0 && 0.0 < m1 <= m2
    ensures h / m2 <= h / m1
  {
    var q := h / m2;
    assert q * m2 == h && q >= 0.0;
    assert q * (m2 - m1) >= 0.0;
    assert q * m1 <= h;
    OrderedQuotients(q * m1, h, m1);
    assert q * m1 / m1 == q;
  }

  /** The similarity lies between 0 and 1; it is 1 exactly for equal strings, and 0 exactly for different
      strings with no two equal characters inside the window. */
  lemma SimilarityBounds(s1: string, s2: string)
    ensures 0.0 <= Similarity(s1, s2) <= 1.0
    ensures Similarity(s1, s2) == 1.0 <==> s1 == s2
    ensures Similarity(s1, s2) == 0.0 <==>
      s1 != s2 &&
      forall i, j :: 0 <= i < |s1| && 0 <= j < |s2| && InWindow(s1, s2, i, j) ==> s1[i] != s2[j]
  {
    var m := Matched(s1, s2);
    var a, b := Selected(s1, m.first), Selected(s2, m.second);
    SelectedSameLetters(s1, s2, |s1|);
    SelectedLength(s1, m.first);
    SelectedLength(s2, m.second);
    NoMatchMeansApart(s1, s2);
    if s1 != s2 && a != [] {
      var t := Mismatches(a, b);
      JaroBounds(|s1|, |s2|, |a|, t);
      var jaro := Jaro(|s1|, |s2|, |a|, t);
      assert jaro != 1.0;
      WinklerBounds(jaro, CommonPrefix(s1, s2, 0));
    }
  }

  // ---- the algorithm ----------------------------------------------------------------------------

  /** The inner loop of the matching: the first free equal character in the window of `i`. */
  method FindPartner(s1: string, s2: string, i: nat, second: array<bool>) returns (found: Option<nat>)
    requires i < |s1| && second.Length == |s2|
    ensures found == Pick(s1, s2, i, second[..], Start(i, MatchDistance(|s1|, |s2|)))
    ensures found.Some? ==> found.value < |s2|
    ensures found.Some? ==> InWindow(s1, s2, i, found.value) && !second[found.value] && s1[i] == s2[found.value]
    ensures forall j :: 0 <= j < (if found.Some? then found.value else |s2|) && InWindow(s1, s2, i, j) ==>
      second[j] || s1[i] != s2[j]
  {
    forall j: nat
      ensures InWindow(s1, s2, i, j) <==> Near(i, j, MatchDistance(|s1|, |s2|))
    {
      WindowIsNear(s1, s2, i, j);
    }
    var distance := MatchDistance(|s1|, |s2|);
    var start, end := Start(i, distance), Min(i + distance + 1, |s2|);
    for j := start to Max(start, end)
      invariant Pick(s1, s2, i, second[..], start) == Pick(s1, s2, i, second[..], j)
    {
      if second[j] || s1[i] != s2[j] {
        continue;
      }
      return Some(j);
    }
    return None;
  }

  method MatchCharacters(s1: string, s2: string, first: array<bool>, second: array<bool>) returns (matches: nat)
    requires first != second && first[..] == NoMarks(s1, s2).first && second[..] == NoMarks(s1, s2).second
    modifies first, second
    ensures Marks(first[..], second[..]) == Matched(s1, s2)
    ensures matches == |Selected(s1, first[..])|
  {
    hide Selected;
    hide Pick;
    matches := 0;
    NothingSelected(s1, first[..]);
    for i := 0 to |s1|
      invariant Marks(first[..], second[..]) == Marked(s1, s2, i)
      invariant matches == |Selected(s1, first[..])|
    {
      ghost var was := Marked(s1, s2, i);
      var found := FindPartner(s1, s2, i, second);
      if found.Some? {
        SelectOneMore(s1, was.first, i);
        first[i], second[found.value] := true, true;
        matches := matches + 1;
        assert first[..] == was.first[i := true] && second[..] == was.second[found.value := true];
      }
    }
  }

  lemma SelectedFrom(s: string, flags: seq<bool>, k: nat)
    requires k < |s| == |flags|
    ensures Selected(s[k..], flags[k..])
      == if flags[k] then [s[k]] + Selected(s[k + 1..], flags[k + 1..]) else Selected(s[k + 1..], flags[k + 1..])
  {
    assert s[k..][1..] == s[k + 1..] && flags[k..][1..] == flags[k + 1..];
  }

  lemma MismatchesStep(x: char, a: string, y: char, b: string)
    requires |a| == |b|
    ensures Mismatches([x] + a, [y] + b) == (if x != y then 1 else 0) + Mismatches(a, b)
  {
    assert ([x] + a)[1..] == a && ([y] + b)[1..] == b;
  }

  /** The inner loop has no bound of its own: it is safe because both arrays still hold equally many flags. */
  method CountTranspositions(s1: string, s2: string, first: array<bool>, second: array<bool>)
    returns (transpositions: nat)
    requires first.Length == |s1| && second.Length == |s2|
    requires |Selected(s1, first[..])| == |Selected(s2, second[..])|
    ensures var a, b := Selected(s1, first[..]), Selected(s2, second[..]);
      transpositions == Mismatches(a, b) == |Differing(a, b)|
  {
    hide Differing;
    hide Mismatches;
    hide Selected;
    MismatchesCount(Selected(s1, first[..]), Selected(s2, second[..]));
    ghost var f1, f2 := first[..], second[..];
    transpositions := 0;
    var k := 0;
    assert s1[0..] == s1 && f1[0..] == f1 && s2[0..] == s2 && f2[0..] == f2;
    for i := 0 to |s1|
      invariant k <= |s2|
      invariant |Selected(s1[i..], f1[i..])| == |Selected(s2[k..], f2[k..])|
      invariant transpositions + Mismatches(Selected(s1[i..], f1[i..]), Selected(s2[k..], f2[k..]))
        == Mismatches(Selected(s1, f1), Selected(s2, f2))
    {
      SelectedFrom(s1, f1, i);
      if !first[i] {
        continue;
      }
      ghost var left := Selected(s2[k..], f2[k..]);
      SelectedLength(s2[k..], f2[k..]);
      while !second[k]
        invariant k < |s2| && Selected(s2[k..], f2[k..]) == left
        decreases |s2| - k
      {
        SelectedFrom(s2, f2, k);
        k := k + 1;
        SelectedLength(s2[k..], f2[k..]);
      }
      SelectedFrom(s2, f2, k);
      MismatchesStep(s1[i], Selected(s1[i + 1..], f1[i + 1..]), s2[k], Selected(s2[k + 1..], f2[k + 1..]));
      if s1[i] != s2[k] {
        transpositions := transpositions + 1;
      }
      k := k + 1;
    }
    SelectedLength(s1[|s1|..], f1[|s1|..]);
  }

  method CountPrefix(s1: string, s2: string) returns (prefix: nat)
    ensures prefix == CommonPrefix(s1, s2, 0)
  {
    prefix := 0;
    while prefix < Min(4, Min(|s1|, |s2|)) && s1[prefix] == s2[prefix]
      invariant prefix <= 4 && CommonPrefix(s1, s2, 0) == CommonPrefix(s1, s2, prefix)
    {
      prefix := prefix + 1;
    }
  }

  lemma EmptyStrings(s1: string, s2: string)
    requires s1 != s2 && (s1 == "" || s2 == "")
    ensures Similarity(s1, s2) == 0.0
  {
    SelectedSameLetters(s1, s2, |s1|);
    SelectedLength(s1, Matched(s1, s2).first);
    SelectedLength(s2, Matched(s1, s2).second);
  }

  method JaroWinklerSimilarity(s1: string, s2: string) returns (score: real)
    ensures score == Similarity(s1, s2)
  {
    hide Selected;
    hide Mismatches;
    hide CommonPrefix;
    hide Matched;
    hide Jaro;
    hide Winkler;
    if s1 == s2 {
      return 1.0;
    }
    if s1 == "" || s2 == "" {
      EmptyStrings(s1, s2);
      return 0.0;
    }
    SelectedSameLetters(s1, s2, |s1|);
    assert Matched(s1, s2) == Marked(s1, s2, |s1|) by { MatchedIs(s1, s2); }
    var first, second := new bool[|s1|](_ => false), new bool[|s2|](_ => false);
    assert first[..] == NoMarks(s1, s2).first && second[..] == NoMarks(s1, s2).second;
    var matches := MatchCharacters(s1, s2, first, second);
    if matches == 0 {
      return 0.0;
    }
    SelectedLength(s1, first[..]);
    var transpositions := CountTranspositions(s1, s2, first, second);
    var prefix := CountPrefix(s1, s2);
    score := Score(|s1|, |s2|, matches, transpositions, prefix);
  }

  method Score(len1: nat, len2: nat, matches: nat, transpositions: nat, prefix: nat) returns (score: real)
    requires len1 > 0 && len2 > 0 && matches > 0
    ensures score == Winkler(Jaro(len1, len2, matches, transpositions), prefix)
  {
    var jaro := (matches as real / len1 as real + matches as real / len2 as real
                 + (matches as real - transpositions as real / 2.0) / matches as real) / 3.0;
    score := jaro + prefix as real * 0.1 * (1.0 - jaro);
  }

  lemma MatchedIs(s1: string, s2: string)
    ensures Matched(s1, s2) == Marked(s1, s2, |s1|)
  {
  }
}
