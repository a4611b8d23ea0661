/**
 * String operations the backend relies on: JavaScript's `split(' ')`, the
 * ASCII part of case folding, and SQL `LIKE` pattern matching as used by the
 * product search (`p.nome ILIKE '%<search>%'`).
 */
module Strings {

  /**
   * `s.split(' ')`: the pieces between single spaces, empty pieces kept. A
   * space starts a new piece; any other character joins the first piece of
   * the rest.
   */
  function Split(s: string): (parts: seq<string>)
    ensures |parts| == Spaces(s) + 1
    decreases |s|
  {
    if s == [] then [""]
    else
      var rest := Split(s[1..]);
      if s[0] == ' ' then [""] + rest else [[s[0]] + rest[0]] + rest[1..]
  }

  /** The number of spaces in `s`. */
  function Spaces(s: string): (n: nat)
    ensures n <= |s|
    ensures n == 0 <==> ' ' !in s
  {
    if s == [] then 0
    else
      assert s == [s[0]] + s[1..];
      (if s[0] == ' ' then 1 else 0) + Spaces(s[1..])
  }

  /**
   * No piece of a split holds a space, and the text splits into a single
   * piece exactly when it has no space.
   */
  lemma {:induction false} SplitPieces(s: string)
    ensures forall i :: 0 <= i < |Split(s)| ==> ' ' !in Split(s)[i]
    ensures |Split(s)| == 1 <==> ' ' !in s
    decreases |s|
  {
    if s != [] {
      var rest := Split(s[1..]);
      SplitPieces(s[1..]);
      if s[0] != ' ' {
        var parts := Split(s);
        assert parts[0] == [s[0]] + rest[0];
        assert ' ' !in [s[0]];
        forall i | 1 <= i < |parts| ensures ' ' !in parts[i] {
          assert parts[i] == rest[i];
        }
      }
    }
  }

  /** `parts.join(' ')`, the inverse of `Split`. */
  function Join(parts: seq<string>): (text: string)
    requires |parts| >= 1
  {
    if |parts| == 1 then parts[0] else parts[0] + " " + Join(parts[1..])
  }

  /** Joining a piece in front of at least one more adds one space. */
  lemma JoinCons(head: string, rest: seq<string>)
    requires |rest| >= 1
    ensures Join([head] + rest) == head + " " + Join(rest)
  {
    assert ([head] + rest)[1..] == rest;
  }

  /** Characters put in front of the first piece come out in front of the joined text. */
  lemma JoinExtendFirst(c: string, first: string, tail: seq<string>)
    ensures Join([c + first] + tail) == c + Join([first] + tail)
  {
    if tail == [] {
      assert [c + first] + tail == [c + first];
      assert [first] + tail == [first];
    } else {
      var rest := Join(tail);
      JoinCons(c + first, tail);
      JoinCons(first, tail);
      assert (c + first) + " " + rest == c + (first + " " + rest);
    }
  }

  /** Joining the pieces of a split gives back the original text. */
  lemma {:induction false} JoinSplit(s: string)
    ensures Join(Split(s)) == s
    decreases |s|
  {
    if s != [] {
      var rest := Split(s[1..]);
      JoinSplit(s[1..]);
      assert s == [s[0]] + s[1..];
      if s[0] == ' ' {
        JoinCons("", rest);
      } else {
        JoinExtendFirst([s[0]], rest[0], rest[1..]);
        assert [rest[0]] + rest[1..] == rest;
      }
    }
  }

  /** A space-free text followed by a space splits into that text and the split of the remainder. */
  lemma {:induction false} SplitAfterWord(a: string, b: string)
    requires ' ' !in a
    ensures Split(a + " " + b) == [a] + Split(b)
    decreases |a|
  {
    var s := a + " " + b;
    if a == [] {
      assert s == " " + b && s[1..] == b;
    } else {
      assert s[1..] == a[1..] + " " + b;
      assert a[0] in a;
      assert a == [a[0]] + a[1..];
      SplitAfterWord(a[1..], b);
    }
  }

  /** A text with no space is a single piece. */
  lemma {:induction false} SplitWord(a: string)
    requires ' ' !in a
    ensures Split(a) == [a]
    decreases |a|
  {
    if a != [] {
      assert a[0] in a;
      assert a == [a[0]] + a[1..];
      SplitWord(a[1..]);
    }
  }

  /** Splitting pieces that hold no space, once joined, recovers exactly those pieces. */
  lemma {:induction false} SplitJoin(parts: seq<string>)
    requires |parts| >= 1
    requires forall i :: 0 <= i < |parts| ==> ' ' !in parts[i]
    ensures Split(Join(parts)) == parts
    decreases |parts|
  {
    if |parts| == 1 {
      SplitWord(parts[0]);
    } else {
      SplitAfterWord(parts[0], Join(parts[1..]));
      SplitJoin(parts[1..]);
      assert parts == [parts[0]] + parts[1..];
    }
  }

  /** ASCII case folding of one character; other characters are left alone. */
  function LowerChar(c: char): (d: char)
  {
    if 'A' <= c <= 'Z' then (c as int + 32) as char else c
  }

  /** ASCII case folding of a string, character by character. */
  function Lower(s: string): (folded: string)
  {
    seq(|s|, i requires 0 <= i < |s| => LowerChar(s[i]))
  }

  /**
   * SQL `LIKE` without an escape character: `%` matches any run of
   * characters, `_` matches exactly one, every other character itself.
   */
  predicate Like(t: string, p: string)
    decreases |p|, |t|
  {
    if p == [] then t == []
    else if p[0] == '%' then Like(t, p[1..]) || (t != [] && Like(t[1..], p))
    else t != [] && (p[0] == '_' || p[0] == t[0]) && Like(t[1..], p[1..])
  }

  /** PostgreSQL `ILIKE`: `LIKE` after case folding both sides. */
  predicate ILike(t: string, p: string)
  {
    Like(Lower(t), Lower(p))
  }

  /** Text that holds neither `LIKE` wildcard, so it stands for itself in a pattern. */
  predicate Literal(s: string)
  {
    '%' !in s && '_' !in s
  }

  /** `s` occurs in `t` starting at position `i`. */
  predicate OccursAt(t: string, s: string, i: nat)
  {
    i + |s| <= |t| && t[i..i + |s|] == s
  }

  /** `s` is a substring of `t`. */
  predicate Contains(t: string, s: string)
  {
    exists i: nat | i <= |t| :: OccursAt(t, s, i)
  }

  /** The pattern `%` matches every text. */
  lemma {:induction false} LikePercentAll(t: string)
    ensures Like(t, "%")
    decreases |t|
  {
    assert "%"[1..] == "";
    if t != [] {
      LikePercentAll(t[1..]);
    }
  }

  /** A literal followed by `%` matches exactly the texts that start with that literal. */
  lemma {:induction false} LikePrefix(t: string, s: string)
    requires Literal(s)
    ensures Like(t, s + "%") <==> |s| <= |t| && t[..|s|] == s
    decreases |s|
  {
    if s == [] {
      assert s + "%" == "%";
      LikePercentAll(t);
    } else {
      var p := s + "%";
      assert p[0] == s[0] && p[1..] == s[1..] + "%";
      assert s[0] != '%' && s[0] != '_';
      assert Literal(s[1..]) by {
        assert forall c :: c in s[1..] ==> c in s;
      }
      if t != [] {
        LikePrefix(t[1..], s[1..]);
        if |s| <= |t| {
          assert t[..|s|] == [t[0]] + t[1..][..|s| - 1];
          assert s == [s[0]] + s[1..];
        }
      }
    }
  }

  /** `q` matches from some position of `t` on. */
  predicate LikeFrom(t: string, q: string, i: nat)
  {
    i <= |t| && Like(t[i..], q)
  }

  /** A leading `%` lets the rest of the pattern match any suffix of the text. */
  lemma {:induction false} LikeLeadingPercent(t: string, q: string)
    ensures Like(t, "%" + q) <==> exists i: nat :: LikeFrom(t, q, i)
    decreases |t|
  {
    var p := "%" + q;
    assert p[0] == '%' && p[1..] == q;
    assert t[0..] == t;
    if exists i: nat :: LikeFrom(t, q, i) {
      var i: nat :| LikeFrom(t, q, i);
      if i > 0 {
        assert t[1..][i - 1..] == t[i..];
        assert LikeFrom(t[1..], q, i - 1);
        LikeLeadingPercent(t[1..], q);
      }
    }
    if Like(t, p) {
      if !Like(t, q) {
        LikeLeadingPercent(t[1..], q);
        var j: nat :| LikeFrom(t[1..], q, j);
        assert t[1..][j..] == t[j + 1..];
        assert LikeFrom(t, q, j + 1);
      } else {
        assert LikeFrom(t, q, 0);
      }
    }
  }

  /** The search pattern `%s%` matches exactly the texts containing the literal `s`. */
  lemma LikeContains(t: string, s: string)
    requires Literal(s)
    ensures Like(t, "%" + s + "%") <==> Contains(t, s)
  {
    assert "%" + s + "%" == "%" + (s + "%");
    LikeLeadingPercent(t, s + "%");
    forall i: nat | i <= |t|
      ensures LikeFrom(t, s + "%", i) <==> OccursAt(t, s, i)
    {
      LikePrefix(t[i..], s);
      if |s| <= |t[i..]| {
        assert t[i..][..|s|] == t[i..i + |s|];
      }
    }
    if Contains(t, s) {
      var i: nat :| i <= |t| && OccursAt(t, s, i);
      LikePrefix(t[i..], s);
      assert t[i..][..|s|] == t[i..i + |s|];
      assert LikeFrom(t, s + "%", i);
    }
  }

  /** Case folding distributes over concatenation. */
  lemma LowerAppend(a: string, b: string)
    ensures Lower(a + b) == Lower(a) + Lower(b)
  {
    var l := Lower(a + b);
    var r := Lower(a) + Lower(b);
    forall i | 0 <= i < |l|
      ensures l[i] == r[i]
    {
      if i < |a| {
        assert (a + b)[i] == a[i];
      } else {
        assert (a + b)[i] == b[i - |a|];
      }
    }
  }

  /** Case folding keeps a literal literal. */
  lemma LowerLiteral(s: string)
    requires Literal(s)
    ensures Literal(Lower(s))
  {
    var r := Lower(s);
    forall i | 0 <= i < |r|
      ensures r[i] != '%' && r[i] != '_'
    {
      assert s[i] in s;
    }
  }

  /**
   * The search as the backend issues it: `name ILIKE '%s%'` holds exactly when
   * the case-folded search text is a substring of the case-folded name,
   * provided the search text holds no wildcard.
   */
  lemma ILikeContains(t: string, s: string)
    requires Literal(s)
    ensures ILike(t, "%" + s + "%") <==> Contains(Lower(t), Lower(s))
  {
    LowerAppend("%" + s, "%");
    LowerAppend("%", s);
    assert Lower("%") == "%";
    LowerLiteral(s);
    LikeContains(Lower(t), Lower(s));
  }

  /**
   * The search text is put into the pattern unescaped: the search `_`
   * matches the name "a", although "a" contains no underscore.
   */
  lemma WildcardSearchIsNotLiteral()
    ensures ILike("a", "%" + "_" + "%")
    ensures !Contains(Lower("a"), Lower("_"))
  {
    var p := "%" + "_" + "%";
    assert Lower("a") == "a";
    assert Lower(p) == p;
    assert p[1..] == "_%";
    assert "_%"[1..] == "%";
    assert "a"[1..] == "";
    LikePercentAll("");
    assert Like("a", "_%");
    assert Like("a", p);
    assert Lower("_") == "_";
    forall i: nat | i <= 1
      ensures !OccursAt("a", "_", i)
    {
      if i == 0 {
        assert "a"[0..1] == "a";
      }
    }
  }
}
