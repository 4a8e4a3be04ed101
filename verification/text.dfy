/** The Python string operations the agents rely on: `"".join`, `sep.join`,
    whitespace `str.split()`, substring search with `in`, and `str.split(sep)`. */
module Text {
  import opened Outcomes

  // ---------------------------------------------------------------------------
  // Joining
  // ---------------------------------------------------------------------------

  /** `"".join(parts)`: the parts one after the other. */
  function Concat(parts: seq<string>): string
  {
    if |parts| == 0 then "" else parts[0] + Concat(parts[1..])
  }

  /** `sep.join(parts)`: the parts with `sep` between neighbours and nowhere else. */
  function Join(parts: seq<string>, sep: string): string
  {
    if |parts| == 0 then ""
    else if |parts| == 1 then parts[0]
    else parts[0] + sep + Join(parts[1..], sep)
  }

  /** Every part followed by `tail`: `[p + tail for p in parts]`. */
  function Suffixed(parts: seq<string>, tail: string): (r: seq<string>)
    ensures |r| == |parts|
    ensures forall i :: 0 <= i < |parts| ==> r[i] == parts[i] + tail
  {
    seq(|parts|, i requires 0 <= i < |parts| => parts[i] + tail)
  }

  lemma {:induction false} ConcatAppend(a: seq<string>, b: seq<string>)
    ensures Concat(a + b) == Concat(a) + Concat(b)
    decreases |a|
  {
    if |a| == 0 {
      assert a + b == b;
    } else {
      assert (a + b)[1..] == a[1..] + b;
      ConcatAppend(a[1..], b);
    }
  }

  /** The concatenation is empty exactly when every part is. */
  lemma {:induction false} ConcatEmpty(parts: seq<string>)
    ensures Concat(parts) == "" <==> forall i :: 0 <= i < |parts| ==> parts[i] == ""
    decreases |parts|
  {
    if |parts| > 0 {
      ConcatEmpty(parts[1..]);
      assert forall i :: 1 <= i < |parts| ==> parts[i] == parts[1..][i - 1];
    }
  }

  /** Concatenating `p + tail` for every part gives the `tail`-joined parts plus one
      trailing `tail`, and nothing at all for no parts. */
  lemma {:induction false} ConcatSuffixed(parts: seq<string>, tail: string)
    ensures Concat(Suffixed(parts, tail)) == if |parts| == 0 then "" else Join(parts, tail) + tail
    decreases |parts|
  {
    var s := Suffixed(parts, tail);
    if |parts| == 1 {
      assert s[1..] == [];
    } else if |parts| > 1 {
      assert s[1..] == Suffixed(parts[1..], tail);
      ConcatSuffixed(parts[1..], tail);
    }
  }

  // ---------------------------------------------------------------------------
  // Whitespace splitting: `str.split()` with no separator
  // ---------------------------------------------------------------------------

  /** The characters Python's `str.split()` treats as separators (`str.isspace`):
      the ASCII controls 9-13 and 28-31, the space, NEL, no-break space, and the
      Unicode space separators and line/paragraph separators. */
  predicate IsSpace(c: char)
  {
    || ('\t' <= c <= '\r')
    || ('\U{1C}' <= c <= ' ')
    || c == '\U{85}' || c == '\U{A0}' || c == '\U{1680}'
    || ('\U{2000}' <= c <= '\U{200A}')
    || c == '\U{2028}' || c == '\U{2029}' || c == '\U{202F}' || c == '\U{205F}'
    || c == '\U{3000}'
  }

  /** A word: non-empty and free of separators. */
  predicate IsWord(w: string)
  {
    |w| > 0 && forall i :: 0 <= i < |w| ==> !IsSpace(w[i])
  }

  /** Separators only appear as the plain space `' '`. */
  predicate PlainSpaced(s: string)
  {
    forall c :: c in s && IsSpace(c) ==> c == ' '
  }

  /** Length of the longest separator-free prefix of `s`. */
  function WordLength(s: string): (n: nat)
    ensures n <= |s|
    ensures forall i :: 0 <= i < n ==> !IsSpace(s[i])
    ensures n < |s| ==> IsSpace(s[n])
    decreases |s|
  {
    if |s| == 0 || IsSpace(s[0]) then 0 else 1 + WordLength(s[1..])
  }

  /** `s.split()`: the maximal separator-free runs of `s`, in order; leading,
      trailing and repeated separators produce no empty words. */
  function Words(s: string): (words: seq<string>)
    ensures forall i :: 0 <= i < |words| ==> IsWord(words[i])
    decreases |s|
  {
    if |s| == 0 then []
    else if IsSpace(s[0]) then Words(s[1..])
    else
      var n := WordLength(s);
      [s[..n]] + Words(s[n..])
  }


  /** Appending text that starts with a separator does not lengthen a word that
      already ended, or that ended with the original text. */
  lemma {:induction false} WordLengthAppend(a: string, rest: string)
    requires WordLength(a) < |a| || (|rest| > 0 && IsSpace(rest[0]))
    ensures WordLength(a + rest) == WordLength(a)
    decreases |a|
  {
    if |a| == 0 {
      assert a + rest == rest;
    } else if !IsSpace(a[0]) {
      assert (a + rest)[1..] == a[1..] + rest;
      WordLengthAppend(a[1..], rest);
    }
  }

  /** Any separator character splits the text into independent halves:
      the words of `a + [c] + b` are the words of `a` followed by those of `b`. */
  lemma {:induction false} WordsSplitAt(a: string, c: char, b: string)
    requires IsSpace(c)
    ensures Words(a + [c] + b) == Words(a) + Words(b)
    decreases |a|
  {
    var s := a + [c] + b;
    if |a| == 0 {
      assert s[1..] == b;
    } else if IsSpace(a[0]) {
      assert s[1..] == a[1..] + [c] + b;
      WordsSplitAt(a[1..], c, b);
    } else {
      assert s == a + ([c] + b);
      WordLengthAppend(a, [c] + b);
      var n := WordLength(a);
      assert s[..n] == a[..n];
      assert s[n..] == a[n..] + [c] + b;
      WordsSplitAt(a[n..], c, b);
    }
  }

  /** A single word splits to itself. */
  lemma WordsOfWord(w: string)
    requires IsWord(w)
    ensures Words(w) == [w]
  {
    assert WordLength(w) == |w|;
    assert w[..|w|] == w;
  }

  /** Splitting undoes joining with single spaces: `" ".join(ws).split() == ws`
      whenever every element of `ws` is a word. */
  lemma {:induction false} WordsOfJoin(words: seq<string>)
    requires forall i :: 0 <= i < |words| ==> IsWord(words[i])
    ensures Words(Join(words, " ")) == words
    decreases |words|
  {
    if |words| == 1 {
      WordsOfWord(words[0]);
    } else if |words| > 1 {
      var rest := Join(words[1..], " ");
      assert words[0] + " " + rest == words[0] + [' '] + rest;
      WordsSplitAt(words[0], ' ', rest);
      WordsOfWord(words[0]);
      WordsOfJoin(words[1..]);
      assert words == [words[0]] + words[1..];
    }
  }

  /** Joining words with single spaces leaves no separator but `' '`. */
  lemma {:induction false} JoinPlainSpaced(words: seq<string>)
    requires forall i :: 0 <= i < |words| ==> IsWord(words[i])
    ensures PlainSpaced(Join(words, " "))
    decreases |words|
  {
    if |words| > 1 {
      JoinPlainSpaced(words[1..]);
    }
  }

  /** No space at either end and never two spaces in a row. */
  predicate SingleSpaced(s: string)
  {
    && (|s| > 0 ==> s[0] != ' ' && s[|s| - 1] != ' ')
    && forall i :: 0 <= i < |s| - 1 ==> !(s[i] == ' ' && s[i + 1] == ' ')
  }

  /** Words joined with single spaces start and end with a word and have exactly
      one space between neighbours. */
  lemma {:induction false} JoinSingleSpaced(words: seq<string>)
    requires forall i :: 0 <= i < |words| ==> IsWord(words[i])
    ensures SingleSpaced(Join(words, " "))
    decreases |words|
  {
    if |words| == 1 {
      assert !IsSpace(words[0][0]) && !IsSpace(words[0][|words[0]| - 1]);
    } else if |words| > 1 {
      var w := words[0];
      var rest := Join(words[1..], " ");
      JoinSingleSpaced(words[1..]);
      assert |rest| >= |words[1]| > 0 by {
        JoinStartsWithFirst(words[1..]);
      }
      var r := w + " " + rest;
      assert r == Join(words, " ");
      assert !IsSpace(w[0]);
      assert r[|r| - 1] == rest[|rest| - 1];
      forall i | 0 <= i < |r| - 1
        ensures !(r[i] == ' ' && r[i + 1] == ' ')
      {
        if i < |w| {
          assert r[i] == w[i];
        } else if i > |w| {
          assert r[i] == rest[i - |w| - 1] && r[i + 1] == rest[i - |w|];
        }
      }
    }
  }

  /** A join of words begins with the first word. */
  lemma JoinStartsWithFirst(words: seq<string>)
    requires |words| > 0
    ensures |Join(words, " ")| >= |words[0]|
    ensures Join(words, " ")[..|words[0]|] == words[0]
  {
  }

  /** `" ".join(s.split())`: `s` with every run of separators collapsed to one
      space and leading and trailing separators removed. It keeps exactly the
      words of `s`, holds no separator other than the plain space, has no space
      at either end and no two spaces in a row; so any text containing, say, a
      newline is changed by normalising it. */
  function Normalize(s: string): (r: string)
    ensures Words(r) == Words(s)
    ensures PlainSpaced(r)
    ensures |r| > 0 ==> r[0] != ' ' && r[|r| - 1] != ' '
    ensures forall i :: 0 <= i < |r| - 1 ==> !(r[i] == ' ' && r[i + 1] == ' ')
  {
    WordsOfJoin(Words(s));
    JoinPlainSpaced(Words(s));
    JoinSingleSpaced(Words(s));
    Join(Words(s), " ")
  }

  /** Normalising twice is normalising once. */
  lemma NormalizeIdempotent(s: string)
    ensures Normalize(Normalize(s)) == Normalize(s)
  {
    assert Words(Normalize(s)) == Words(s);
  }

  // ---------------------------------------------------------------------------
  // Substring search and `str.split(sep)`
  // ---------------------------------------------------------------------------

  /** `pat` occurs in `s` starting at index `i`. */
  predicate OccursAt(s: string, pat: string, i: nat)
  {
    i + |pat| <= |s| && s[i..i + |pat|] == pat
  }

  /** The first occurrence of `pat` in `s` at or after `from`. */
  function IndexFrom(s: string, pat: string, from: nat): (r: Option<nat>)
    requires from <= |s|
    ensures r.Some? ==> from <= r.value && OccursAt(s, pat, r.value)
    ensures r.Some? ==> forall j: nat :: from <= j < r.value ==> !OccursAt(s, pat, j)
    ensures r.None? ==> forall j: nat :: from <= j ==> !OccursAt(s, pat, j)
    decreases |s| - from
  {
    if from + |pat| > |s| then None
    else if s[from..from + |pat|] == pat then Some(from)
    else IndexFrom(s, pat, from + 1)
  }

  /** `s.find(pat)`, with `None` for Python's `-1`. */
  function IndexOf(s: string, pat: string): (r: Option<nat>)
    ensures r.Some? ==> OccursAt(s, pat, r.value)
    ensures r.Some? ==> forall j: nat :: j < r.value ==> !OccursAt(s, pat, j)
    ensures r.None? ==> forall j: nat :: !OccursAt(s, pat, j)
  {
    IndexFrom(s, pat, 0)
  }

  /** `pat in s`. */
  predicate Contains(s: string, pat: string)
    ensures Contains(s, pat) <==> exists j: nat :: OccursAt(s, pat, j)
  {
    IndexOf(s, pat).Some?
  }

  /** The text before the first occurrence of a separator holds no occurrence of it. */
  lemma PrefixBeforeFirst(s: string, sep: string, i: nat)
    requires |sep| > 0
    requires IndexOf(s, sep) == Some(i)
    ensures !Contains(s[..i], sep)
  {
    forall j: nat
      ensures !OccursAt(s[..i], sep, j)
    {
      if j + |sep| <= i {
        assert s[..i][j..j + |sep|] == s[j..j + |sep|];
        assert !OccursAt(s, sep, j);
      }
    }
  }

  /** `s.split(sep)` for a non-empty separator: the pieces between occurrences,
      found left to right without overlap. */
  function Split(s: string, sep: string): (parts: seq<string>)
    requires |sep| > 0
    ensures |parts| >= 1
    ensures forall k :: 0 <= k < |parts| ==> !Contains(parts[k], sep)
    decreases |s|
  {
    match IndexOf(s, sep)
    case None => [s]
    case Some(i) =>
      PrefixBeforeFirst(s, sep, i);
      [s[..i]] + Split(s[i + |sep|..], sep)
  }

  /** Joining the pieces back with the separator restores the text:
      `sep.join(s.split(sep)) == s`. */
  lemma {:induction false} SplitJoin(s: string, sep: string)
    requires |sep| > 0
    ensures Join(Split(s, sep), sep) == s
    decreases |s|
  {
    match IndexOf(s, sep)
    case None =>
    case Some(i) =>
      var rest := s[i + |sep|..];
      var tail := Split(rest, sep);
      SplitJoin(rest, sep);
      assert Split(s, sep) == [s[..i]] + tail;
      assert ([s[..i]] + tail)[1..] == tail;
      assert s == s[..i] + s[i..i + |sep|] + rest;
  }
}
