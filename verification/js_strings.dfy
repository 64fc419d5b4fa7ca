/**
 * The handful of JavaScript string behaviours the interview wizard relies on:
 * truthiness of strings, the `value || fallback` idiom, and the
 * `split(" ").join(",")` normalisation of the skills field.
 */
module JsStrings {
  import opened Optional

  /** In JavaScript only the empty string is a falsy string; "   " is truthy. */
  predicate Truthy(s: string)
    ensures Truthy(s) <==> |s| > 0
  {
    s != ""
  }

  /**
   * `value || fallback` where `value` is a possibly missing string field:
   * a missing field and the empty string both fall back.
   */
  function OrElse(value: Option<string>, fallback: string): (r: string)
    ensures r == fallback || value == Some(r)
    ensures value.Some? && Truthy(value.value) ==> r == value.value
    ensures Truthy(fallback) ==> Truthy(r)
  {
    if value.Some? && Truthy(value.value) then value.value else fallback
  }

  /** Number of occurrences of `c` in `s`. */
  function Count(s: string, c: char): nat
  {
    if |s| == 0 then 0 else (if s[0] == c then 1 else 0) + Count(s[1..], c)
  }

  /**
   * `s.split(sep)` for a one-character separator: the maximal pieces between
   * separators, always at least one piece ("".split(" ") is [""]).
   */
  function Split(s: string, sep: char): (parts: seq<string>)
    ensures |parts| == Count(s, sep) + 1
    ensures forall i :: 0 <= i < |parts| ==> sep !in parts[i]
    decreases |s|
  {
    if |s| == 0 then [""]
    else
      var rest := Split(s[1..], sep);
      if s[0] == sep then [""] + rest
      else [[s[0]] + rest[0]] + rest[1..]
  }

  /** No piece of `parts` contains `sep`. */
  predicate Separable(parts: seq<string>, sep: char) {
    forall i :: 0 <= i < |parts| ==> sep !in parts[i]
  }

  /** Occurrences of `c` in a concatenation add up. */
  lemma {:induction false} CountConcat(a: string, b: string, c: char)
    ensures Count(a + b, c) == Count(a, c) + Count(b, c)
    decreases |a|
  {
    if |a| > 0 {
      assert (a + b)[1..] == a[1..] + b;
      CountConcat(a[1..], b, c);
    } else {
      assert a + b == b;
    }
  }

  /** A string without `c` has no occurrence of it. */
  lemma {:induction false} CountAbsent(s: string, c: char)
    requires c !in s
    ensures Count(s, c) == 0
    decreases |s|
  {
    if |s| > 0 {
      assert c !in s[1..] by {
        forall i | 0 <= i < |s[1..]| ensures s[1..][i] != c {
          assert s[1..][i] == s[i + 1];
        }
      }
      CountAbsent(s[1..], c);
    }
  }

  /**
   * `parts.join(sep)` for a one-character separator: it starts with the first
   * piece, and when no piece contains `sep` it holds one separator between
   * each two neighbouring pieces and no other.
   */
  function Join(parts: seq<string>, sep: char): (r: string)
    ensures |parts| == 0 ==> r == []
    ensures |parts| > 0 ==> parts[0] <= r
    ensures |parts| > 0 && Separable(parts, sep) ==> Count(r, sep) == |parts| - 1
    decreases |parts|
  {
    if |parts| == 0 then ""
    else if |parts| == 1 then
      if Separable(parts, sep) then
        CountAbsent(parts[0], sep);
        parts[0]
      else
        parts[0]
    else
      var tail := Join(parts[1..], sep);
      assert Separable(parts, sep) ==> Separable(parts[1..], sep) by {
        if Separable(parts, sep) {
          forall i | 0 <= i < |parts[1..]| ensures sep !in parts[1..][i] {
            assert parts[1..][i] == parts[i + 1];
          }
        }
      }
      if Separable(parts, sep) then
        CountAbsent(parts[0], sep);
        CountConcat(parts[0], [sep], sep);
        CountConcat(parts[0] + [sep], tail, sep);
        parts[0] + [sep] + tail
      else
        parts[0] + [sep] + tail
  }

  /** A piece without `sep` followed by `sep` is split off as the first piece. */
  lemma {:induction false} SplitPiece(p: string, sep: char, rest: string)
    requires sep !in p
    ensures Split(p + [sep] + rest, sep) == [p] + Split(rest, sep)
    decreases |p|
  {
    var t := p + [sep] + rest;
    if |p| == 0 {
      assert t == [sep] + rest;
      assert t[1..] == rest;
    } else {
      assert t[0] == p[0] && t[1..] == p[1..] + [sep] + rest;
      assert sep !in p[1..] by {
        forall i | 0 <= i < |p[1..]| ensures p[1..][i] != sep {
          assert p[1..][i] == p[i + 1];
        }
      }
      SplitPiece(p[1..], sep, rest);
      assert [p[0]] + p[1..] == p;
    }
  }

  /** A string without `sep` splits into itself alone. */
  lemma {:induction false} SplitWithoutSeparator(p: string, sep: char)
    requires sep !in p
    ensures Split(p, sep) == [p]
    decreases |p|
  {
    if |p| > 0 {
      assert sep !in p[1..] by {
        forall i | 0 <= i < |p[1..]| ensures p[1..][i] != sep {
          assert p[1..][i] == p[i + 1];
        }
      }
      SplitWithoutSeparator(p[1..], sep);
      assert [p[0]] + p[1..] == p;
    }
  }

  /**
   * Splitting a join gives the pieces back, provided there is at least one
   * piece and no piece contains the separator.
   */
  lemma {:induction false} SplitJoinInverse(parts: seq<string>, sep: char)
    requires |parts| > 0 && Separable(parts, sep)
    ensures Split(Join(parts, sep), sep) == parts
    decreases |parts|
  {
    if |parts| == 1 {
      SplitWithoutSeparator(parts[0], sep);
    } else {
      assert Separable(parts[1..], sep) by {
        forall i | 0 <= i < |parts[1..]| ensures sep !in parts[1..][i] {
          assert parts[1..][i] == parts[i + 1];
        }
      }
      SplitJoinInverse(parts[1..], sep);
      SplitPiece(parts[0], sep, Join(parts[1..], sep));
      assert [parts[0]] + parts[1..] == parts;
    }
  }

  /**
   * Reference definition: every occurrence of `a` replaced by `b`, every other
   * character left at its position.
   */
  function ReplaceChar(s: string, a: char, b: char): (r: string)
    ensures |r| == |s|
    ensures forall i :: 0 <= i < |s| ==> r[i] == (if s[i] == a then b else s[i])
  {
    if |s| == 0 then ""
    else [if s[0] == a then b else s[0]] + ReplaceChar(s[1..], a, b)
  }

  /** Splitting on `a` and joining with `b` is replacing `a` by `b`. */
  lemma {:induction false} JoinSplitIsReplace(s: string, a: char, b: char)
    ensures Join(Split(s, a), b) == ReplaceChar(s, a, b)
    decreases |s|
  {
    if |s| > 0 {
      var rest := Split(s[1..], a);
      JoinSplitIsReplace(s[1..], a, b);
      assert Join(rest, b) == ReplaceChar(s[1..], a, b);
      if s[0] == a {
        assert Split(s, a) == [""] + rest;
        assert ([""] + rest)[1..] == rest;
      } else {
        var first := [s[0]] + rest[0];
        assert Split(s, a) == [first] + rest[1..];
        if |rest| == 1 {
          assert Join(rest, b) == rest[0];
        } else {
          assert ([first] + rest[1..])[1..] == rest[1..];
          assert Join(rest, b) == rest[0] + [b] + Join(rest[1..], b);
        }
      }
    }
  }

  /** Splitting and joining with the same separator gives the input back. */
  lemma SplitJoinRoundTrip(s: string, sep: char)
    ensures Join(Split(s, sep), sep) == s
  {
    JoinSplitIsReplace(s, sep, sep);
    assert ReplaceChar(s, sep, sep) == s;
  }

  /**
   * The wizard's skills normalisation `skills.split(" ").join(",")`: every space
   * becomes a comma, every other character stays where it is.
   */
  function NormaliseSkills(skills: string): (r: string)
    ensures |r| == |skills|
    ensures forall i :: 0 <= i < |skills| && skills[i] == ' ' ==> r[i] == ','
    ensures forall i :: 0 <= i < |skills| && skills[i] != ' ' ==> r[i] == skills[i]
    ensures ' ' !in r
  {
    JoinSplitIsReplace(skills, ' ', ',');
    Join(Split(skills, ' '), ',')
  }

  /** Normalising already normalised skills changes nothing. */
  lemma NormaliseSkillsIdempotent(skills: string)
    ensures NormaliseSkills(NormaliseSkills(skills)) == NormaliseSkills(skills)
  {
    var once := NormaliseSkills(skills);
    var twice := NormaliseSkills(once);
    assert forall i :: 0 <= i < |once| ==> twice[i] == once[i];
  }

  /** Normalisation fixes exactly the strings without spaces. */
  lemma NormaliseSkillsFixedPoints(skills: string)
    ensures NormaliseSkills(skills) == skills <==> ' ' !in skills
  {
    var r := NormaliseSkills(skills);
    if ' ' !in skills {
      assert forall i :: 0 <= i < |skills| ==> r[i] == skills[i];
    }
  }

  /**
   * Normalisation works character by character, so it distributes over
   * concatenation.
   */
  lemma NormaliseSkillsConcat(a: string, b: string)
    ensures NormaliseSkills(a + b) == NormaliseSkills(a) + NormaliseSkills(b)
  {
    var whole := NormaliseSkills(a + b);
    var parts := NormaliseSkills(a) + NormaliseSkills(b);
    assert |whole| == |parts|;
    forall i | 0 <= i < |whole|
      ensures whole[i] == parts[i]
    {
      if i < |a| {
        assert (a + b)[i] == a[i];
      } else {
        assert (a + b)[i] == b[i - |a|];
      }
    }
  }

  /**
   * A comma followed by a space, as in "React, Node", becomes two commas and
   * so an empty piece in the comma-separated list.
   */
  lemma NormaliseSkillsDoublesCommaAfterSpace(a: string, b: string)
    requires ' ' !in a && ' ' !in b
    ensures NormaliseSkills(a + ", " + b) == a + ",," + b
  {
    NormaliseSkillsConcat(a + ", ", b);
    NormaliseSkillsConcat(a, ", ");
    NormaliseSkillsFixedPoints(a);
    NormaliseSkillsFixedPoints(b);
    var sep := NormaliseSkills(", ");
    assert sep[0] == ',' && sep[1] == ',';
    assert sep == ",,";
  }
}
