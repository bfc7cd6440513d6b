/** The answer check of the terminal: both the typed input and the
    mission's `answerHash` are lowercased, every run of whitespace becomes one
    space, the ends are trimmed, and the two results must be equal.

    Characters are modelled in ASCII: lowercasing maps only 'A'..'Z', and
    whitespace is space, tab, line feed, vertical tab, form feed and carriage
    return. */
module AnswerCheck {

  predicate IsSpace(c: char)
  {
    c == ' ' || c == '\t' || c == '\n' || c == '\U{000B}' || c == '\U{000C}' || c == '\r'
  }

  predicate IsUpper(c: char)
  {
    'A' <= c <= 'Z'
  }

  function LowerChar(c: char): char
  {
    if IsUpper(c) then (c as int + 32) as char else c
  }

  /** Lowercasing keeps the length and maps every character. */
  function Lower(s: string): (r: string)
    ensures |r| == |s|
    ensures forall i :: 0 <= i < |s| ==> r[i] == LowerChar(s[i])
  {
    if s == [] then [] else [LowerChar(s[0])] + Lower(s[1..])
  }

  /** The characters of `s` that are not whitespace, in order. */
  function NonSpace(s: string): string
  {
    if s == [] then []
    else (if IsSpace(s[0]) then [] else [s[0]]) + NonSpace(s[1..])
  }

  /** Removes the whitespace at the front: the result is a suffix of `s`,
      everything removed is whitespace, and it does not start with whitespace. */
  function DropSpaces(s: string): (r: string)
    ensures |r| <= |s| && r == s[|s| - |r|..]
    ensures forall i :: 0 <= i < |s| - |r| ==> IsSpace(s[i])
    ensures r == [] || !IsSpace(r[0])
  {
    if s != [] && IsSpace(s[0]) then DropSpaces(s[1..]) else s
  }

  /** Removes the whitespace at the back: the result is a prefix of `s`,
      everything removed is whitespace, and it does not end with whitespace. */
  function TrimEnd(s: string): (r: string)
    ensures |r| <= |s| && r == s[..|r|]
    ensures forall i :: |r| <= i < |s| ==> IsSpace(s[i])
    ensures r == [] || !IsSpace(r[|r| - 1])
  {
    if s != [] && IsSpace(s[|s| - 1]) then TrimEnd(s[..|s| - 1]) else s
  }

  /** Whitespace removed at both ends. */
  function Trim(s: string): string
  {
    TrimEnd(DropSpaces(s))
  }

  /** Trimming leaves nothing exactly when every character is whitespace. */
  lemma TrimEmptyIffBlank(s: string)
    ensures Trim(s) == [] <==> forall i :: 0 <= i < |s| ==> IsSpace(s[i])
  {
    var d := DropSpaces(s);
    if !forall i :: 0 <= i < |s| ==> IsSpace(s[i]) {
      var k :| 0 <= k < |s| && !IsSpace(s[k]);
      assert d != [] && !IsSpace(d[0]);
      assert TrimEnd(d) != [];
    }
  }

  /** No whitespace but the plain space, and never two spaces in a row. */
  predicate SingleSpaced(t: string)
  {
    (forall i :: 0 <= i < |t| ==> IsSpace(t[i]) ==> t[i] == ' ')
    && (forall i :: 0 <= i < |t| - 1 ==> t[i] == ' ' ==> t[i + 1] != ' ')
  }

  /** Every maximal run of whitespace becomes a single space: the result is
      no longer than `s` and starts with a space exactly when `s` starts
      with whitespace (CollapseIsSingleSpaced and CollapseKeepsText say the
      rest). */
  function Collapse(s: string): (r: string)
    ensures |r| <= |s|
    ensures (r != [] && r[0] == ' ') <==> (s != [] && IsSpace(s[0]))
    decreases |s|
  {
    if s == [] then []
    else if IsSpace(s[0]) then [' '] + Collapse(DropSpaces(s[1..]))
    else [s[0]] + Collapse(s[1..])
  }

  /** `toLowerCase().replace(/\s+/g, ' ').trim()` */
  function Normalize(s: string): string
  {
    Trim(Collapse(Lower(s)))
  }

  /** The forms Normalize produces: single-spaced, no space at either end,
      no upper-case letter. */
  predicate Canonical(t: string)
  {
    SingleSpaced(t)
    && (t == [] || (t[0] != ' ' && t[|t| - 1] != ' '))
    && forall i :: 0 <= i < |t| ==> !IsUpper(t[i])
  }

  /** The verdict of a submission. */
  predicate Accepts(input: string, answerHash: string)
  {
    Normalize(input) == Normalize(answerHash)
  }

  // ---------------------------------------------------------------------
  // Canonical form and idempotence
  // ---------------------------------------------------------------------

  /** After collapsing, the only whitespace is the plain space and no two
      spaces are adjacent. */
  lemma {:induction false} CollapseIsSingleSpaced(s: string)
    ensures SingleSpaced(Collapse(s))
    decreases |s|
  {
    if s != [] {
      if IsSpace(s[0]) {
        CollapseIsSingleSpaced(DropSpaces(s[1..]));
      } else {
        CollapseIsSingleSpaced(s[1..]);
      }
    }
  }

  /** Collapsing keeps the characters that are not whitespace, in order,
      and brings in no upper-case letter. */
  lemma {:induction false} CollapseKeepsText(s: string)
    ensures NonSpace(Collapse(s)) == NonSpace(s)
    ensures (forall i :: 0 <= i < |s| ==> !IsUpper(s[i])) ==>
      forall i :: 0 <= i < |Collapse(s)| ==> !IsUpper(Collapse(s)[i])
    decreases |s|
  {
    if s != [] {
      var r := Collapse(s);
      if IsSpace(s[0]) {
        var d := DropSpaces(s[1..]);
        DropSpacesKeepsNonSpace(s[1..]);
        CollapseKeepsText(d);
        NonSpaceAppend([' '], Collapse(d));
        assert r == [' '] + Collapse(d);
        assert NonSpace(s) == NonSpace(s[1..]);
      } else {
        CollapseKeepsText(s[1..]);
        NonSpaceAppend([s[0]], Collapse(s[1..]));
        assert r == [s[0]] + Collapse(s[1..]);
      }
    }
  }

  /** Normalize produces a canonical string with the same non-whitespace
      characters as the lowercased input. */
  lemma NormalizeIsCanonical(s: string)
    ensures Canonical(Normalize(s))
    ensures NonSpace(Normalize(s)) == NonSpace(Lower(s))
  {
    var l := Lower(s);
    var c := Collapse(l);
    CollapseKeepsText(l);
    CollapseIsSingleSpaced(l);
    TrimIsCanonical(c);
    DropSpacesKeepsNonSpace(c);
    TrimEndKeepsNonSpace(DropSpaces(c));
  }

  /** Trimming a single-spaced string without upper-case letters gives a
      canonical string. */
  lemma TrimIsCanonical(c: string)
    requires SingleSpaced(c) && forall i :: 0 <= i < |c| ==> !IsUpper(c[i])
    ensures Canonical(Trim(c))
  {
    DropSpacesKeepsSpacing(c);
    TrimEndKeepsSpacing(DropSpaces(c));
    var d, t := DropSpaces(c), Trim(c);
    assert t != [] ==> t[0] == d[0];
  }

  /** Removing leading whitespace keeps a string single-spaced and free of
      upper-case letters. */
  lemma {:induction false} DropSpacesKeepsSpacing(s: string)
    requires SingleSpaced(s) && forall i :: 0 <= i < |s| ==> !IsUpper(s[i])
    ensures SingleSpaced(DropSpaces(s)) && forall i :: 0 <= i < |DropSpaces(s)| ==> !IsUpper(DropSpaces(s)[i])
    decreases |s|
  {
    if s != [] && IsSpace(s[0]) {
      assert SingleSpaced(s[1..]);
      DropSpacesKeepsSpacing(s[1..]);
    }
  }

  /** Removing trailing whitespace keeps a string single-spaced and free of
      upper-case letters. */
  lemma {:induction false} TrimEndKeepsSpacing(s: string)
    requires SingleSpaced(s) && forall i :: 0 <= i < |s| ==> !IsUpper(s[i])
    ensures SingleSpaced(TrimEnd(s)) && forall i :: 0 <= i < |TrimEnd(s)| ==> !IsUpper(TrimEnd(s)[i])
    decreases |s|
  {
    if s != [] && IsSpace(s[|s| - 1]) {
      var p := s[..|s| - 1];
      assert forall i :: 0 <= i < |p| ==> p[i] == s[i];
      TrimEndKeepsSpacing(p);
    }
  }

  /** Removing leading whitespace keeps the other characters. */
  lemma {:induction false} DropSpacesKeepsNonSpace(s: string)
    ensures NonSpace(DropSpaces(s)) == NonSpace(s)
    decreases |s|
  {
    if s != [] && IsSpace(s[0]) {
      DropSpacesKeepsNonSpace(s[1..]);
    }
  }

  /** Removing trailing whitespace keeps the other characters. */
  lemma {:induction false} TrimEndKeepsNonSpace(s: string)
    ensures NonSpace(TrimEnd(s)) == NonSpace(s)
    decreases |s|
  {
    if s != [] && IsSpace(s[|s| - 1]) {
      var p := s[..|s| - 1];
      TrimEndKeepsNonSpace(p);
      NonSpaceAppend(p, [s[|s| - 1]]);
      assert s == p + [s[|s| - 1]];
    }
  }

  lemma {:induction false} NonSpaceAppend(a: string, b: string)
    ensures NonSpace(a + b) == NonSpace(a) + NonSpace(b)
    decreases |a|
  {
    if a != [] {
      HeadTailOfAppend(a, b);
      NonSpaceAppend(a[1..], b);
    } else {
      assert a + b == b;
    }
  }

  lemma AppendAssoc<T>(a: seq<T>, b: seq<T>, c: seq<T>)
    ensures a + (b + c) == (a + b) + c
  {
  }

  lemma HeadTailOfAppend<T>(a: seq<T>, b: seq<T>)
    requires a != []
    ensures (a + b)[0] == a[0] && (a + b)[1..] == a[1..] + b
  {
  }

  /** Lowercasing a string without upper-case letters changes nothing. */
  lemma LowerFixed(t: string)
    requires forall i :: 0 <= i < |t| ==> !IsUpper(t[i])
    ensures Lower(t) == t
  {
  }

  /** Collapsing a single-spaced string changes nothing. */
  lemma {:induction false} CollapseFixed(t: string)
    requires SingleSpaced(t)
    ensures Collapse(t) == t
    decreases |t|
  {
    if t != [] {
      assert SingleSpaced(t[1..]);
      if IsSpace(t[0]) {
        assert |t| > 1 ==> t[1] != ' ';
        assert DropSpaces(t[1..]) == t[1..];
      }
      CollapseFixed(t[1..]);
    }
  }

  /** A canonical string is its own normal form. */
  lemma CanonicalIsFixed(t: string)
    requires Canonical(t)
    ensures Normalize(t) == t
  {
    LowerFixed(t);
    CollapseFixed(t);
    assert DropSpaces(t) == t;
    assert TrimEnd(t) == t;
  }

  /** Normalising twice is normalising once. */
  lemma NormalizeIdempotent(s: string)
    ensures Normalize(Normalize(s)) == Normalize(s)
  {
    NormalizeIsCanonical(s);
    CanonicalIsFixed(Normalize(s));
  }

  // ---------------------------------------------------------------------
  // What the verdict ignores and what it does not
  // ---------------------------------------------------------------------

  /** The verdict does not change when the input is replaced by its
      normal form or by its lowercase form. */
  lemma AcceptsUpToNormalForm(input: string, answerHash: string)
    ensures Accepts(input, answerHash) <==> Accepts(Normalize(input), answerHash)
    ensures Accepts(input, answerHash) <==> Accepts(Lower(input), answerHash)
  {
    NormalizeIdempotent(input);
    LowerFixed(Lower(input));
  }

  lemma {:induction false} LowerAppend(a: string, b: string)
    ensures Lower(a + b) == Lower(a) + Lower(b)
  {
  }

  /** Dropping the leading whitespace of a string whose last character is
      not whitespace does not reach past it. */
  lemma {:induction false} DropSpacesAppend(a: string, x: string)
    requires a != [] && !IsSpace(a[|a| - 1])
    ensures DropSpaces(a + x) == DropSpaces(a) + x
    decreases |a|
  {
    HeadTailOfAppend(a, x);
    if IsSpace(a[0]) {
      DropSpacesAppend(a[1..], x);
    }
  }

  /** Dropping the leading whitespace of a string that ends in a character
      that is not whitespace keeps that last character. */
  lemma {:induction false} DropSpacesKeepsLast(a: string)
    requires a != [] && !IsSpace(a[|a| - 1])
    ensures DropSpaces(a) != [] && DropSpaces(a)[|DropSpaces(a)| - 1] == a[|a| - 1]
    decreases |a|
  {
    if IsSpace(a[0]) {
      DropSpacesKeepsLast(a[1..]);
    }
  }

  /** Whitespace in front of `x` is dropped entirely. */
  lemma {:induction false} DropSpacesAfterSpaces(w: string, x: string)
    requires forall i :: 0 <= i < |w| ==> IsSpace(w[i])
    ensures DropSpaces(w + x) == DropSpaces(x)
    decreases |w|
  {
    if w != [] {
      HeadTailOfAppend(w, x);
      DropSpacesAfterSpaces(w[1..], x);
    } else {
      assert w + x == x;
    }
  }

  /** Collapsing splits after a character that is not whitespace. */
  lemma {:induction false} CollapseAppend(p: string, x: string)
    requires p == [] || !IsSpace(p[|p| - 1])
    ensures Collapse(p + x) == Collapse(p) + Collapse(x)
    decreases |p|
  {
    if p == [] {
      assert p + x == x;
    } else if !IsSpace(p[0]) {
      HeadTailOfAppend(p, x);
      CollapseAppend(p[1..], x);
    } else {
      var d := DropSpaces(p[1..]);
      DropSpacesAppend(p[1..], x);
      DropSpacesKeepsLast(p[1..]);
      CollapseAppend(d, x);
      CollapseAppendAfterSpace(p, x);
    }
  }

  /** The step of CollapseAppend for a string that starts with whitespace. */
  lemma CollapseAppendAfterSpace(p: string, x: string)
    requires p != [] && IsSpace(p[0])
    requires DropSpaces(p[1..] + x) == DropSpaces(p[1..]) + x
    requires Collapse(DropSpaces(p[1..]) + x) == Collapse(DropSpaces(p[1..])) + Collapse(x)
    ensures Collapse(p + x) == Collapse(p) + Collapse(x)
  {
    var d := DropSpaces(p[1..]);
    HeadTailOfAppend(p, x);
    assert Collapse(p + x) == [' '] + Collapse(d + x);
    assert Collapse(p) == [' '] + Collapse(d);
    AppendAssoc([' '], Collapse(d), Collapse(x));
  }

  /** A non-empty run of whitespace collapses to one space whatever its
      length and content. */
  lemma CollapseRun(w: string, x: string)
    requires w != [] && forall i :: 0 <= i < |w| ==> IsSpace(w[i])
    ensures Collapse(w + x) == [' '] + Collapse(DropSpaces(x))
  {
    HeadTailOfAppend(w, x);
    DropSpacesAfterSpaces(w[1..], x);
  }

  /** The normal form around a whitespace run that follows a non-space
      character (or starts the input) does not depend on the run. */
  lemma NormalizeAroundRun(p: string, w: string, q: string)
    requires p == [] || !IsSpace(p[|p| - 1])
    requires w != [] && forall i :: 0 <= i < |w| ==> IsSpace(w[i])
    ensures Normalize(p + w + q) == Trim(Collapse(Lower(p)) + ([' '] + Collapse(DropSpaces(Lower(q)))))
  {
    var lp, lq := Lower(p), Lower(q);
    calc {
      Normalize(p + w + q);
      Trim(Collapse(Lower(p + w + q)));
    == { LowerAroundRun(p, w, q); }
      Trim(Collapse(lp + (w + lq)));
    == { assert lp == [] || !IsSpace(lp[|lp| - 1]);
         CollapseAppend(lp, w + lq); }
      Trim(Collapse(lp) + Collapse(w + lq));
    == { CollapseRun(w, lq); }
      Trim(Collapse(lp) + ([' '] + Collapse(DropSpaces(lq))));
    }
  }

  /** Lowercasing leaves a whitespace run in place. */
  lemma LowerAroundRun(p: string, w: string, q: string)
    requires forall i :: 0 <= i < |w| ==> IsSpace(w[i])
    ensures Lower(p + w + q) == Lower(p) + (w + Lower(q))
  {
    calc {
      Lower(p + w + q);
    == { LowerAppend(p + w, q); }
      Lower(p + w) + Lower(q);
    == { LowerAppend(p, w); }
      Lower(p) + Lower(w) + Lower(q);
    == { LowerFixed(w); }
      Lower(p) + w + Lower(q);
    }
  }

  /** The verdict ignores how long a whitespace run is: replacing a run that
      follows a non-space character (or starts the input) by any other
      non-empty run gives the same normal form. */
  lemma RunLengthIgnored(p: string, w1: string, w2: string, q: string)
    requires p == [] || !IsSpace(p[|p| - 1])
    requires w1 != [] && forall i :: 0 <= i < |w1| ==> IsSpace(w1[i])
    requires w2 != [] && forall i :: 0 <= i < |w2| ==> IsSpace(w2[i])
    ensures Normalize(p + w1 + q) == Normalize(p + w2 + q)
  {
    NormalizeAroundRun(p, w1, q);
    NormalizeAroundRun(p, w2, q);
  }

  /** Two different canonical strings are never accepted for one another. */
  lemma DistinctCanonicalRefused(input: string, answerHash: string)
    requires Canonical(input) && Canonical(answerHash) && input != answerHash
    ensures !Accepts(input, answerHash)
  {
    CanonicalIsFixed(input);
    CanonicalIsFixed(answerHash);
  }

  lemma SpacedIsSingleSpaced()
    ensures SingleSpaced("function soma(a, b){return a+b}")
  {
  }

  lemma SpacedHasNoCapital()
    ensures forall i :: 0 <= i < |"function soma(a, b){return a+b}"| ==> !IsUpper("function soma(a, b){return a+b}"[i])
  {
  }

  lemma SpacedIsCanonical()
    ensures Canonical("function soma(a, b){return a+b}")
  {
    SpacedIsSingleSpaced();
    SpacedHasNoCapital();
  }

  lemma UnspacedIsSingleSpaced()
    ensures SingleSpaced("function soma(a,b){return a+b}")
  {
  }

  lemma UnspacedHasNoCapital()
    ensures forall i :: 0 <= i < |"function soma(a,b){return a+b}"| ==> !IsUpper("function soma(a,b){return a+b}"[i])
  {
  }

  lemma UnspacedIsCanonical()
    ensures Canonical("function soma(a,b){return a+b}")
  {
    UnspacedIsSingleSpaced();
    UnspacedHasNoCapital();
  }

  /** Whether whitespace is present does matter: the input
      "function soma(a, b){return a+b}" is refused for the answer
      "function soma(a,b){return a+b}". */
  lemma PresenceOfSpaceMatters()
    ensures !Accepts("function soma(a, b){return a+b}", "function soma(a,b){return a+b}")
  {
    SpacedIsCanonical();
    UnspacedIsCanonical();
    DistinctCanonicalRefused("function soma(a, b){return a+b}", "function soma(a,b){return a+b}");
  }
}
