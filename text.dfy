/** The few Python string operations the two tools use to turn a file name
    into a stock code: `str.split` with a one-character separator, its inverse
    `str.join`, `str.replace(pat, '')` and `str.startswith`. */
module Text {

  /** Python's `s.split(sep)`: the pieces between occurrences of `sep`,
      always at least one (`"".split("_") == [""]`). */
  function Split(s: string, sep: char): (parts: seq<string>)
    ensures |parts| >= 1
  {
    if s == [] then [[]]
    else
      var rest := Split(s[1..], sep);
      if s[0] == sep then [[]] + rest
      else [[s[0]] + rest[0]] + rest[1..]
  }

  /** No piece holds the separator. */
  lemma {:induction false} SplitPieces(s: string, sep: char)
    ensures forall i :: 0 <= i < |Split(s, sep)| ==> sep !in Split(s, sep)[i]
  {
    if s != [] {
      SplitPieces(s[1..], sep);
    }
  }

  /** The pieces hold no character the string does not. */
  lemma {:induction false} SplitKeepsOut(s: string, sep: char, c: char)
    requires c !in s
    ensures forall i :: 0 <= i < |Split(s, sep)| ==> c !in Split(s, sep)[i]
  {
    if s != [] {
      SplitKeepsOut(s[1..], sep, c);
    }
  }

  /** Python's `sep.join(parts)`. */
  function Join(parts: seq<string>, sep: char): string
  {
    if parts == [] then []
    else if |parts| == 1 then parts[0]
    else parts[0] + [sep] + Join(parts[1..], sep)
  }

  /** `parts[-1]` */
  function Last(parts: seq<string>): string
    requires |parts| >= 1
  {
    parts[|parts| - 1]
  }

  /** Python's `s.startswith(prefix)`. */
  predicate StartsWith(s: string, prefix: string)
  {
    |prefix| <= |s| && s[..|prefix|] == prefix
  }

  /** Joining the pieces of a split gives the original string back. */
  lemma {:induction false} SplitJoin(s: string, sep: char)
    ensures Join(Split(s, sep), sep) == s
  {
    if s != [] {
      var rest := Split(s[1..], sep);
      SplitJoin(s[1..], sep);
      if s[0] == sep {
        assert Split(s, sep) == [[]] + rest;
        assert ([[]] + rest)[1..] == rest;
        assert s == [sep] + s[1..];
      } else {
        var parts := [[s[0]] + rest[0]] + rest[1..];
        assert Split(s, sep) == parts;
        if |rest| == 1 {
          assert s == [s[0]] + s[1..];
        } else {
          assert parts[1..] == rest[1..];
          assert Join(rest, sep) == rest[0] + [sep] + Join(rest[1..], sep);
          assert s == [s[0]] + s[1..];
        }
      }
    }
  }

  /** The string is the last piece preceded by the other pieces, each
      followed by the separator. */
  lemma LastPiece(s: string, sep: char)
    ensures var parts := Split(s, sep);
      s == (if |parts| == 1 then [] else Join(parts[..|parts| - 1], sep) + [sep]) + Last(parts)
  {
    var parts := Split(s, sep);
    SplitJoin(s, sep);
    JoinLast(parts, sep);
  }

  /** The string is the first piece followed, when there are more, by the
      separator and the other pieces. */
  lemma FirstPiece(s: string, sep: char)
    ensures var parts := Split(s, sep);
      s == parts[0] + (if |parts| == 1 then [] else [sep] + Join(parts[1..], sep))
  {
    SplitJoin(s, sep);
  }

  /** Taking the last piece off a join. */
  lemma {:induction false} JoinLast(parts: seq<string>, sep: char)
    requires |parts| >= 1
    ensures Join(parts, sep) == if |parts| == 1 then parts[0]
                                else Join(parts[..|parts| - 1], sep) + [sep] + parts[|parts| - 1]
  {
    if |parts| > 2 {
      JoinLast(parts[1..], sep);
      assert parts[1..][..|parts| - 2] == parts[..|parts| - 1][1..];
    }
  }

  /** A string without the separator splits into itself. */
  lemma {:induction false} SplitNoSep(s: string, sep: char)
    requires sep !in s
    ensures Split(s, sep) == [s]
  {
    if s != [] {
      SplitNoSep(s[1..], sep);
      assert s == [s[0]] + s[1..];
    }
  }

  /** Splitting at one occurrence of the separator splits the two sides apart. */
  lemma {:induction false} SplitConcat(a: string, b: string, sep: char)
    ensures Split(a + [sep] + b, sep) == Split(a, sep) + Split(b, sep)
  {
    if a == [] {
      SplitCons(sep, b, sep);
      assert a + [sep] + b == [sep] + b;
    } else {
      var c, a' := a[0], a[1..];
      assert a == [c] + a';
      assert a + [sep] + b == [c] + (a' + [sep] + b);
      SplitConcat(a', b, sep);
      SplitCons(c, a' + [sep] + b, sep);
      SplitCons(c, a', sep);
      ConsPieces(c, Split(a', sep), Split(b, sep), sep);
    }
  }

  /** `Split` on a string with a known first character. */
  lemma SplitCons(c: char, t: string, sep: char)
    ensures Split([c] + t, sep)
            == if c == sep then [[]] + Split(t, sep) else [[c] + Split(t, sep)[0]] + Split(t, sep)[1..]
  {
    assert ([c] + t)[1..] == t;
  }

  /** Gluing a character onto the first piece commutes with appending pieces. */
  lemma ConsPieces(c: char, r1: seq<string>, r2: seq<string>, sep: char)
    requires |r1| >= 1
    ensures (if c == sep then [[]] + (r1 + r2) else [[c] + (r1 + r2)[0]] + (r1 + r2)[1..])
            == (if c == sep then [[]] + r1 else [[c] + r1[0]] + r1[1..]) + r2
  {
    assert (r1 + r2)[0] == r1[0];
    assert (r1 + r2)[1..] == r1[1..] + r2;
  }

  /** Splitting a join of separator-free pieces gives the pieces back. */
  lemma {:induction false} JoinSplit(parts: seq<string>, sep: char)
    requires |parts| >= 1
    requires forall i :: 0 <= i < |parts| ==> sep !in parts[i]
    ensures Split(Join(parts, sep), sep) == parts
  {
    SplitNoSep(parts[0], sep);
    if |parts| > 1 {
      JoinSplit(parts[1..], sep);
      SplitConcat(parts[0], Join(parts[1..], sep), sep);
      assert parts == [parts[0]] + parts[1..];
    }
  }

  /** Python's `s.replace(pat, '')`: every occurrence of `pat`, scanning left
      to right without overlap, is removed; an empty `pat` changes nothing. */
  function RemoveAll(s: string, pat: string): (r: string)
    ensures |r| <= |s|
    decreases |s|
  {
    if pat == [] || |s| < |pat| then s
    else if s[..|pat|] == pat then RemoveAll(s[|pat|..], pat)
    else [s[0]] + RemoveAll(s[1..], pat)
  }

  /** A character that cannot start the pattern is kept as it is. */
  lemma RemoveAllCons(c: char, t: string, pat: string)
    requires pat == [] || c != pat[0]
    ensures RemoveAll([c] + t, pat) == [c] + RemoveAll(t, pat)
  {
    var s := [c] + t;
    assert s[1..] == t;
    if pat != [] && |s| < |pat| {
      assert RemoveAll(t, pat) == t;
    }
  }

  /** No occurrence spans a boundary followed by a character foreign to the
      pattern, so the two sides are cleaned independently. */
  lemma {:induction false} RemoveAllConcat(a: string, b: string, pat: string)
    requires b != [] && b[0] !in pat
    ensures RemoveAll(a + b, pat) == RemoveAll(a, pat) + RemoveAll(b, pat)
    decreases |a|, 1
  {
    if a == [] {
      assert a + b == b;
    } else if pat != [] && |a| < |pat| {
      RemoveAllConcatShort(a, b, pat);
    } else if pat != [] {
      RemoveAllConcatLong(a, b, pat);
    }
  }

  /** The case where `a` is shorter than the pattern: no occurrence starts
      in `a`, since it would have to reach `b[0]`. */
  lemma {:induction false} RemoveAllConcatShort(a: string, b: string, pat: string)
    requires b != [] && b[0] !in pat && a != [] && |a| < |pat|
    ensures RemoveAll(a + b, pat) == RemoveAll(a, pat) + RemoveAll(b, pat)
    decreases |a|, 0
  {
    var s := a + b;
    if |s| >= |pat| {
      assert s[..|pat|][|a|] == b[0];
      assert s[1..] == a[1..] + b;
      RemoveAllConcat(a[1..], b, pat);
      assert a == [a[0]] + a[1..];
    }
  }

  /** The case where `a` is at least as long as the pattern: the first step
      is the same on `a + b` as on `a`. */
  lemma {:induction false} RemoveAllConcatLong(a: string, b: string, pat: string)
    requires b != [] && b[0] !in pat && pat != [] && |a| >= |pat|
    ensures RemoveAll(a + b, pat) == RemoveAll(a, pat) + RemoveAll(b, pat)
    decreases |a|, 0
  {
    var s := a + b;
    assert s[..|pat|] == a[..|pat|];
    if a[..|pat|] == pat {
      assert s[|pat|..] == a[|pat|..] + b;
      RemoveAllConcat(a[|pat|..], b, pat);
    } else {
      assert s[1..] == a[1..] + b;
      RemoveAllConcat(a[1..], b, pat);
    }
  }

  /** A string in which the pattern's first character never occurs, followed
      by the pattern, loses exactly that trailing pattern. */
  lemma {:induction false} RemoveAllSuffix(code: string, pat: string)
    requires pat != [] && pat[0] !in code
    ensures RemoveAll(code + pat, pat) == code
  {
    var s := code + pat;
    if code == [] {
      assert s == pat && s[|pat|..] == [];
    } else {
      assert s[0] == code[0];
      assert s[..|pat|] != pat;
      assert s[1..] == code[1..] + pat;
      RemoveAllSuffix(code[1..], pat);
      assert code == [code[0]] + code[1..];
    }
  }
}
