/** SQL's LIKE predicate as section 8.5 of ISO/IEC 9075:1992 defines it, with backslash as the escape
    character, and the escaping the SQLite backend applies to a key prefix. How two characters compare is
    a parameter: SQLite folds ASCII case. */
module Like {

  type Comparison = (char, char) -> bool

  // ---- escaping ---------------------------------------------------------------------------------

  /** Python's `s.replace(c, by)` for a one-character `c`. */
  function Replace(s: string, c: char, into: string): string {
    if s == [] then []
    else (if s[0] == c then into else [s[0]]) + Replace(s[1..], c, into)
  }

  /** The three replacements, one after the other. */
  function Escape(prefix: string): string {
    Replace(Replace(Replace(prefix, '\\', "\\\\"), '%', "\\%"), '_', "\\_")
  }

  predicate Special(c: char) {
    c == '\\' || c == '%' || c == '_'
  }

  /** Escaping in one pass. */
  function EscapeEach(prefix: string): string {
    if prefix == [] then []
    else (if Special(prefix[0]) then ['\\', prefix[0]] else [prefix[0]]) + EscapeEach(prefix[1..])
  }

  lemma {:induction false} ReplaceConcat(a: string, b: string, c: char, into: string)
    ensures Replace(a + b, c, into) == Replace(a, c, into) + Replace(b, c, into)
    decreases |a|
  {
    if a == [] {
      assert a + b == b;
    } else {
      ReplaceConcat(a[1..], b, c, into);
      assert (a + b)[1..] == a[1..] + b;
    }
  }

  lemma ReplaceOne(x: char, c: char, into: string)
    ensures Replace([x], c, into) == if x == c then into else [x]
  {
    assert Replace([x][1..], c, into) == [];
  }

  lemma ReplaceTwo(x: char, y: char, c: char, into: string)
    ensures Replace([x, y], c, into) == (if x == c then into else [x]) + (if y == c then into else [y])
  {
    assert [x, y][1..] == [y];
    ReplaceOne(y, c, into);
  }

  lemma EscapeOne(x: char)
    ensures Escape([x]) == if Special(x) then ['\\', x] else [x]
  {
    ReplaceOne(x, '\\', "\\\\");
    if x == '\\' {
      ReplaceTwo('\\', '\\', '%', "\\%");
      ReplaceTwo('\\', '\\', '_', "\\_");
    } else {
      ReplaceOne(x, '%', "\\%");
      if x == '%' {
        ReplaceTwo('\\', '%', '_', "\\_");
      } else {
        ReplaceOne(x, '_', "\\_");
      }
    }
  }

  lemma EscapeConcat(a: string, b: string)
    ensures Escape(a + b) == Escape(a) + Escape(b)
  {
    ReplaceConcat(a, b, '\\', "\\\\");
    var a1, b1 := Replace(a, '\\', "\\\\"), Replace(b, '\\', "\\\\");
    ReplaceConcat(a1, b1, '%', "\\%");
    ReplaceConcat(Replace(a1, '%', "\\%"), Replace(b1, '%', "\\%"), '_', "\\_");
  }

  /** The successive replacements escape every special character exactly once: the backslashes that the
      later ones put in are never escaped again. */
  lemma {:induction false} EscapeIsCharwise(prefix: string)
    ensures Escape(prefix) == EscapeEach(prefix)
  {
    if prefix != [] {
      EscapeIsCharwise(prefix[1..]);
      EscapeConcat([prefix[0]], prefix[1..]);
      EscapeOne(prefix[0]);
      assert prefix == [prefix[0]] + prefix[1..];
    }
  }

  // ---- matching ---------------------------------------------------------------------------------

  datatype Specifier = AnyString | AnyChar | Exactly(c: char)

  datatype Pattern = Specifiers(list: seq<Specifier>) | InvalidEscape

  /** The pattern as substring specifiers; an escape character must stand before a special one. */
  function Parse(pattern: string): Pattern {
    if pattern == [] then Specifiers([])
    else if pattern[0] == '\\' then
      if |pattern| < 2 || !Special(pattern[1]) then InvalidEscape
      else Before(Exactly(pattern[1]), Parse(pattern[2..]))
    else if pattern[0] == '%' then Before(AnyString, Parse(pattern[1..]))
    else if pattern[0] == '_' then Before(AnyChar, Parse(pattern[1..]))
    else Before(Exactly(pattern[0]), Parse(pattern[1..]))
  }

  function Before(s: Specifier, rest: Pattern): Pattern {
    if rest.InvalidEscape? then InvalidEscape else Specifiers([s] + rest.list)
  }

  predicate Fits(part: string, s: Specifier, eq: Comparison) {
    match s
    case AnyString => true
    case AnyChar => |part| == 1
    case Exactly(c) => |part| == 1 && eq(part[0], c)
  }

  function Concat(parts: seq<string>): string {
    if parts == [] then [] else parts[0] + Concat(parts[1..])
  }

  ghost predicate PartsFit(parts: seq<string>, list: seq<Specifier>, eq: Comparison) {
    |parts| == |list| && forall i :: 0 <= i < |parts| ==> Fits(parts[i], list[i], eq)
  }

  /** The value can be cut into one part for each specifier. */
  ghost predicate Matches(value: string, list: seq<Specifier>, eq: Comparison) {
    exists parts :: Concat(parts) == value && PartsFit(parts, list, eq)
  }

  ghost predicate IsLike(value: string, pattern: string, eq: Comparison) {
    Parse(pattern).Specifiers? && Matches(value, Parse(pattern).list, eq)
  }

  /** A decision procedure: the first specifier takes every part it can. */
  predicate Accepts(value: string, list: seq<Specifier>, eq: Comparison)
    decreases |list|
  {
    if list == [] then value == []
    else exists n :: 0 <= n <= |value| && Fits(value[..n], list[0], eq) && Accepts(value[n..], list[1..], eq)
  }

  predicate LikeTest(value: string, pattern: string, eq: Comparison) {
    Parse(pattern).Specifiers? && Accepts(value, Parse(pattern).list, eq)
  }

  lemma PutPart(part: string, rest: seq<string>, list: seq<Specifier>, eq: Comparison)
    requires list != [] && Fits(part, list[0], eq) && PartsFit(rest, list[1..], eq)
    ensures PartsFit([part] + rest, list, eq) && Concat([part] + rest) == part + Concat(rest)
  {
    hide Fits;
    var parts := [part] + rest;
    assert parts[1..] == rest;
    assert forall i :: 0 < i < |parts| ==> parts[i] == rest[i - 1] && list[i] == list[1..][i - 1];
  }

  lemma TakePart(parts: seq<string>, list: seq<Specifier>, eq: Comparison)
    requires PartsFit(parts, list, eq) && list != []
    ensures |parts| > 0 && |parts[0]| <= |Concat(parts)|
    ensures PartsFit(parts[1..], list[1..], eq) && Fits(parts[0], list[0], eq)
    ensures Concat(parts)[..|parts[0]|] == parts[0] && Concat(parts)[|parts[0]|..] == Concat(parts[1..])
  {
    hide Fits;
    var rest := parts[1..];
    assert forall i :: 0 <= i < |rest| ==> rest[i] == parts[i + 1] && list[1..][i] == list[i + 1];
  }

  /** Trying every length for every part finds a cut whenever there is one. */
  lemma {:induction false} AcceptsIffMatches(value: string, list: seq<Specifier>, eq: Comparison)
    ensures Accepts(value, list, eq) <==> Matches(value, list, eq)
    decreases |list|
  {
    hide Fits;
    hide PartsFit;
    hide Concat;
    if list == [] {
      NoParts(value, eq);
    } else {
      if Accepts(value, list, eq) {
        var n :| 0 <= n <= |value| && Fits(value[..n], list[0], eq) && Accepts(value[n..], list[1..], eq);
        AcceptsIffMatches(value[n..], list[1..], eq);
        var rest :| Concat(rest) == value[n..] && PartsFit(rest, list[1..], eq);
        PutPart(value[..n], rest, list, eq);
        assert value == value[..n] + value[n..];
      }
      if Matches(value, list, eq) {
        var parts :| Concat(parts) == value && PartsFit(parts, list, eq);
        TakePart(parts, list, eq);
        AcceptsIffMatches(value[|parts[0]|..], list[1..], eq);
      }
    }
  }

  lemma NoParts(value: string, eq: Comparison)
    ensures Matches(value, [], eq) <==> value == []
  {
    assert PartsFit([], [], eq) && Concat([]) == [];
  }

  predicate StartsAlike(key: string, prefix: string, eq: Comparison) {
    |prefix| <= |key| && forall i :: 0 <= i < |prefix| ==> eq(key[i], prefix[i])
  }

  function Exact(prefix: string): seq<Specifier> {
    seq(|prefix|, i requires 0 <= i < |prefix| => Exactly(prefix[i]))
  }

  lemma {:induction false} EscapedParses(prefix: string)
    ensures Parse(EscapeEach(prefix) + "%") == Specifiers(Exact(prefix) + [AnyString])
  {
    if prefix == [] {
      assert EscapeEach(prefix) + "%" == "%";
      assert Parse("%"[1..]) == Specifiers([]);
      assert Exact(prefix) + [AnyString] == [AnyString] + [];
    } else {
      var rest := EscapeEach(prefix[1..]) + "%";
      EscapedParses(prefix[1..]);
      var head := if Special(prefix[0]) then ['\\', prefix[0]] else [prefix[0]];
      assert EscapeEach(prefix) + "%" == head + rest;
      assert (head + rest)[|head|..] == rest;
      assert Exact(prefix) + [AnyString] == [Exactly(prefix[0])] + (Exact(prefix[1..]) + [AnyString]);
    }
  }

  lemma {:induction false} MatchesStartsAlike(parts: seq<string>, prefix: string, eq: Comparison)
    requires PartsFit(parts, Exact(prefix) + [AnyString], eq)
    ensures StartsAlike(Concat(parts), prefix, eq)
    decreases |prefix|
  {
    if prefix != [] {
      var list := Exact(prefix) + [AnyString];
      assert Fits(parts[0], list[0], eq);
      assert list[1..] == Exact(prefix[1..]) + [AnyString];
      assert forall i :: 0 <= i < |parts| - 1 ==> parts[1..][i] == parts[i + 1] && list[1..][i] == list[i + 1];
      MatchesStartsAlike(parts[1..], prefix[1..], eq);
      forall i | 0 <= i < |prefix|
        ensures eq(Concat(parts)[i], prefix[i])
      {
        if i > 0 {
          assert Concat(parts)[i] == Concat(parts[1..])[i - 1] && prefix[i] == prefix[1..][i - 1];
        }
      }
    }
  }

  function Cut(key: string, n: nat): (parts: seq<string>)
    requires n <= |key|
    ensures |parts| == n + 1
  {
    if n == 0 then [key] else [[key[0]]] + Cut(key[1..], n - 1)
  }

  lemma {:induction false} CutMatches(key: string, prefix: string, eq: Comparison)
    requires StartsAlike(key, prefix, eq)
    ensures Concat(Cut(key, |prefix|)) == key && PartsFit(Cut(key, |prefix|), Exact(prefix) + [AnyString], eq)
    decreases |prefix|
  {
    if prefix == [] {
      assert Concat([key][1..]) == [];
    } else {
      var parts := Cut(key, |prefix|);
      var rest := Cut(key[1..], |prefix| - 1);
      CutMatches(key[1..], prefix[1..], eq);
      assert parts == [[key[0]]] + rest && parts[1..] == rest;
      var list := Exact(prefix) + [AnyString];
      assert list == [Exactly(prefix[0])] + (Exact(prefix[1..]) + [AnyString]);
      forall i | 0 <= i < |parts|
        ensures Fits(parts[i], list[i], eq)
      {
        if i > 0 {
          assert Fits(rest[i - 1], (Exact(prefix[1..]) + [AnyString])[i - 1], eq);
        }
      }
    }
  }

  /** The escaped prefix followed by a percent sign is a valid pattern, and it matches exactly the keys that
      start with the prefix, character for character under LIKE's own comparison; backslashes, percent
      signs and underscores in the prefix stand for themselves. */
  lemma LikeMatchesPrefix(key: string, prefix: string, eq: Comparison)
    ensures Parse(Escape(prefix) + "%").Specifiers?
    ensures IsLike(key, Escape(prefix) + "%", eq) <==> StartsAlike(key, prefix, eq)
  {
    EscapeIsCharwise(prefix);
    EscapedParses(prefix);
    var list := Exact(prefix) + [AnyString];
    if Matches(key, list, eq) {
      var parts :| Concat(parts) == key && PartsFit(parts, list, eq);
      MatchesStartsAlike(parts, prefix, eq);
    }
    if StartsAlike(key, prefix, eq) {
      CutMatches(key, prefix, eq);
    }
  }

  lemma LikeTestMatchesPrefix(key: string, prefix: string, eq: Comparison)
    ensures LikeTest(key, Escape(prefix) + "%", eq) <==> StartsAlike(key, prefix, eq)
  {
    LikeMatchesPrefix(key, prefix, eq);
    AcceptsIffMatches(key, Parse(Escape(prefix) + "%").list, eq);
  }

  /** Unescaped, the pattern would match other keys as well. */
  lemma UnescapedOvermatches()
    ensures IsLike("x", "_" + "%", (a: char, b: char) => a == b)
    ensures !StartsAlike("x", "_", (a: char, b: char) => a == b)
  {
    var exact := (a: char, b: char) => a == b;
    assert "_" + "%" == "_%" && "_%"[1..] == "%" && "%"[1..] == "";
    assert Parse("%") == Specifiers([AnyString]);
    var list := [AnyChar, AnyString];
    assert Parse("_%") == Specifiers(list);
    var parts := ["x", ""];
    assert parts[1..] == [""] && parts[1..][1..] == [];
    assert PartsFit(parts, list, exact) && Concat(parts) == "x";
    assert "x"[0] != "_"[0];
  }
}
