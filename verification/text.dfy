/**
 * The JavaScript string operations the blog relies on, over `seq<char>`:
 * the `\s` character class and `String.prototype.trim`, ASCII lower-casing,
 * `split(/\s+/)`, `replace(/\s+/g, h)`, `split(',')` and `Array.prototype.join`.
 */
module Text {

  type String = seq<char>

  /** The ECMAScript WhiteSpace and LineTerminator code points: what `\s` matches and `trim` strips. */
  predicate IsWs(c: char) {
    || c == ' ' || c == '\t' || c == '\n' || c == '\U{B}' || c == '\U{C}' || c == '\r'
    || c == '\U{A0}' || c == '\U{1680}' || ('\U{2000}' <= c <= '\U{200A}')
    || c == '\U{2028}' || c == '\U{2029}' || c == '\U{202F}' || c == '\U{205F}'
    || c == '\U{3000}' || c == '\U{FEFF}'
  }

  /** No whitespace anywhere in s. */
  predicate NoWs(s: String) {
    forall i :: 0 <= i < |s| ==> !IsWs(s[i])
  }

  /** s is empty or made of whitespace only: what JavaScript treats as falsy after `trim()`. */
  predicate Blank(s: String) {
    forall i :: 0 <= i < |s| ==> IsWs(s[i])
  }

  /** s neither starts nor ends with whitespace. */
  predicate Trimmed(s: String) {
    s == [] || (!IsWs(s[0]) && !IsWs(s[|s| - 1]))
  }

  /** No two consecutive occurrences of h in s. */
  predicate NoDoubled(s: String, h: char) {
    forall i :: 0 <= i < |s| - 1 ==> !(s[i] == h && s[i + 1] == h)
  }

  // ---------------------------------------------------------------------------
  // Case mapping (ASCII only)
  // ---------------------------------------------------------------------------

  predicate IsAsciiUpper(c: char) { 'A' <= c <= 'Z' }

  function LowerChar(c: char): (r: char)
    ensures !IsAsciiUpper(r)
    ensures IsWs(r) <==> IsWs(c)
  {
    if IsAsciiUpper(c) then (c as int + 32) as char else c
  }

  /** `toLowerCase()` restricted to the ASCII letters. */
  function Lower(s: String): (r: String)
    ensures |r| == |s|
    ensures forall i :: 0 <= i < |s| ==> r[i] == LowerChar(s[i])
  {
    seq(|s|, i requires 0 <= i < |s| => LowerChar(s[i]))
  }

  // ---------------------------------------------------------------------------
  // Filters and counts
  // ---------------------------------------------------------------------------

  /** Occurrences of c in s. */
  function Count(c: char, s: String): nat {
    if s == [] then 0 else (if s[0] == c then 1 else 0) + Count(c, s[1..])
  }

  /** s with every whitespace character deleted. */
  function RemoveWs(s: String): String {
    if s == [] then [] else (if IsWs(s[0]) then [] else [s[0]]) + RemoveWs(s[1..])
  }

  /** s with every occurrence of c deleted. */
  function RemoveChar(s: String, c: char): String {
    if s == [] then [] else (if s[0] == c then [] else [s[0]]) + RemoveChar(s[1..], c)
  }

  lemma CountAbsent(c: char, s: String)
    requires c !in s
    ensures Count(c, s) == 0
  {
    if s != [] {
      CountAbsent(c, s[1..]);
    }
  }

  // ---------------------------------------------------------------------------
  // Trimming
  // ---------------------------------------------------------------------------

  /** `trimStart()`: s without its leading whitespace. */
  function DropWs(s: String): (r: String)
    ensures |r| <= |s|
    ensures r == s[|s| - |r|..]
    ensures r == [] || !IsWs(r[0])
    ensures forall i :: 0 <= i < |s| - |r| ==> IsWs(s[i])
    ensures s != [] && IsWs(s[0]) ==> |r| < |s|
  {
    if s != [] && IsWs(s[0]) then DropWs(s[1..]) else s
  }

  /** `trimEnd()`: s without its trailing whitespace. */
  function DropWsEnd(s: String): (r: String)
    ensures |r| <= |s|
    ensures r == s[..|r|]
    ensures r == [] || !IsWs(r[|r| - 1])
    ensures forall i :: |r| <= i < |s| ==> IsWs(s[i])
  {
    if s != [] && IsWs(s[|s| - 1]) then DropWsEnd(s[..|s| - 1]) else s
  }

  /** `trim()`: the longest infix of s that neither starts nor ends with whitespace. */
  function Trim(s: String): (r: String)
    ensures |r| <= |s|
  {
    DropWsEnd(DropWs(s))
  }

  /** The trimmed string neither starts nor ends with whitespace, holds only characters
      of s, is empty exactly when s is blank, and is s itself when s is already trimmed. */
  lemma TrimProps(s: String)
    ensures Trimmed(Trim(s))
    ensures forall c :: c in Trim(s) ==> c in s
    ensures Trim(s) == [] <==> Blank(s)
    ensures Trimmed(s) ==> Trim(s) == s
  {
    TrimFacts(s, DropWs(s), Trim(s));
  }

  lemma TrimFacts(s: String, t: String, r: String)
    requires t == DropWs(s) && r == DropWsEnd(t)
    ensures Trimmed(r)
    ensures forall c :: c in r ==> c in s
    ensures r == [] <==> Blank(s)
    ensures Trimmed(s) ==> r == s
  {
    assert r != [] ==> r[0] == t[0];
    assert forall c :: c in r ==> c in t;
    assert forall c :: c in t ==> c in s;
    if r == [] {
      assert t == [];
      assert Blank(s);
    }
    if Blank(s) && t != [] {
      assert false;
    }
    if Trimmed(s) && s != [] {
      assert t == s;
    }
  }

  /** The trimmed string is the infix of s left after its leading and trailing whitespace:
      a blank prefix of `Lead(s)` characters, then the trimmed string, then a blank suffix. */
  lemma TrimIsInfix(s: String)
    ensures Lead(s) + |Trim(s)| <= |s|
    ensures Blank(s[..Lead(s)]) && Blank(s[Lead(s) + |Trim(s)|..])
    ensures s == s[..Lead(s)] + Trim(s) + s[Lead(s) + |Trim(s)|..]
  {
    var d := DropWs(s);
    TrimEdgesBlank(s, d, DropWsEnd(d), Lead(s));
    TrimSplits(s, d, DropWsEnd(d), Lead(s));
  }

  lemma TrimEdgesBlank(s: String, d: String, r: String, a: nat)
    requires a <= |s| && d == s[a..] && (forall i :: 0 <= i < a ==> IsWs(s[i]))
    requires |r| <= |d| && (forall i :: |r| <= i < |d| ==> IsWs(d[i]))
    ensures a + |r| <= |s|
    ensures Blank(s[..a]) && Blank(s[a + |r|..])
  {
    var pre, post := s[..a], s[a + |r|..];
    forall i | 0 <= i < |pre|
      ensures IsWs(pre[i])
    {
      assert pre[i] == s[i];
    }
    forall i | 0 <= i < |post|
      ensures IsWs(post[i])
    {
      assert post[i] == d[|r| + i];
    }
  }

  lemma TrimSplits(s: String, d: String, r: String, a: nat)
    requires a <= |s| && d == s[a..] && |r| <= |d| && r == d[..|r|]
    ensures a + |r| <= |s|
    ensures s == s[..a] + r + s[a + |r|..]
  {
    SplitAround(s, a, r);
  }

  /** A sequence is its prefix, then an infix it holds at a, then the rest. */
  lemma SplitAround<T>(s: seq<T>, a: nat, r: seq<T>)
    requires a + |r| <= |s| && r == s[a..][..|r|]
    ensures s == s[..a] + r + s[a + |r|..]
  {
    assert (s[..a] + r + s[a + |r|..])[..a] == s[..a];
  }

  /** Lower-casing keeps a trimmed string trimmed: it maps whitespace to whitespace. */
  lemma LowerKeepsTrimmed(t: String)
    requires Trimmed(t)
    ensures Trimmed(Lower(t))
  {
    if t != [] {
      var n := Lower(t);
      assert n[0] == LowerChar(t[0]);
      assert n[|n| - 1] == LowerChar(t[|t| - 1]);
    }
  }

  /** The number of leading whitespace characters of s. */
  function Lead(s: String): (n: nat)
    ensures n <= |s|
  {
    |s| - |DropWs(s)|
  }

  /** Leading whitespace does not change the trimmed string. */
  lemma {:induction false} TrimLeadingWs(c: char, s: String)
    requires IsWs(c)
    ensures Trim([c] + s) == Trim(s)
  {
    assert ([c] + s)[1..] == s;
  }

  // ---------------------------------------------------------------------------
  // Whitespace runs: `split(/\s+/)` and `replace(/\s+/g, h)`
  // ---------------------------------------------------------------------------

  /** The number of maximal runs of whitespace in s. */
  function Runs(s: String): nat
    decreases |s|
  {
    if s == [] then 0
    else if IsWs(s[0]) then 1 + Runs(DropWs(s))
    else Runs(s[1..])
  }

  /** `s.split(/\s+/)`: the pieces between maximal whitespace runs, empty pieces included. */
  function SplitWs(s: String): (r: seq<String>)
    ensures |r| >= 1
    decreases |s|
  {
    if s == [] then [[]]
    else if IsWs(s[0]) then [[]] + SplitWs(DropWs(s))
    else
      var rest := SplitWs(s[1..]);
      [[s[0]] + rest[0]] + rest[1..]
  }

  /** Splitting yields one piece more than there are whitespace runs, and no piece
      holds whitespace. */
  lemma {:induction false} SplitWsShape(s: String)
    ensures |SplitWs(s)| == Runs(s) + 1
    ensures forall i :: 0 <= i < |SplitWs(s)| ==> NoWs(SplitWs(s)[i])
    decreases |s|
  {
    if s == [] {
    } else if IsWs(s[0]) {
      SplitWsShape(DropWs(s));
    } else {
      SplitWsShape(s[1..]);
      SplitWsShapeStep(s, SplitWs(s[1..]));
    }
  }

  lemma SplitWsShapeStep(s: String, rest: seq<String>)
    requires s != [] && !IsWs(s[0]) && rest == SplitWs(s[1..])
    requires |rest| == Runs(s[1..]) + 1
    requires forall i :: 0 <= i < |rest| ==> NoWs(rest[i])
    ensures |SplitWs(s)| == Runs(s) + 1
    ensures forall i :: 0 <= i < |SplitWs(s)| ==> NoWs(SplitWs(s)[i])
  {
    var first := [s[0]] + rest[0];
    assert NoWs(first) by {
      forall i | 0 <= i < |first|
        ensures !IsWs(first[i])
      {
        if i > 0 {
          assert first[i] == rest[0][i - 1];
        }
      }
    }
    var r := [first] + rest[1..];
    assert SplitWs(s) == r;
    forall i | 0 <= i < |r|
      ensures NoWs(r[i])
    {
      if i > 0 {
        assert r[i] == rest[i];
      }
    }
  }

  /** `s.replace(/\s+/g, h)`: every maximal run of whitespace becomes a single h. */
  function ReplaceRuns(s: String, h: char): (r: String)
    ensures |r| <= |s|
    ensures r == [] <==> s == []
    decreases |s|
  {
    if s == [] then []
    else if IsWs(s[0]) then [h] + ReplaceRuns(DropWs(s), h)
    else [s[0]] + ReplaceRuns(s[1..], h)
  }

  /** Every character of the result is h or a non-whitespace character of s. */
  lemma {:induction false} ReplaceRunsChars(s: String, h: char)
    ensures forall c :: c in ReplaceRuns(s, h) ==> c == h || (c in s && !IsWs(c))
    decreases |s|
  {
    if s == [] {
    } else if IsWs(s[0]) {
      var d := DropWs(s);
      ReplaceRunsChars(d, h);
      assert ReplaceRuns(s, h) == [h] + ReplaceRuns(d, h);
      assert forall c :: c in d ==> c in s;
    } else {
      ReplaceRunsChars(s[1..], h);
      assert ReplaceRuns(s, h) == [s[0]] + ReplaceRuns(s[1..], h);
      assert forall c :: c in s[1..] ==> c in s;
    }
  }

  /** With a non-whitespace h the result has no whitespace at all. */
  lemma ReplaceRunsNoWs(s: String, h: char)
    requires !IsWs(h)
    ensures NoWs(ReplaceRuns(s, h))
  {
    ReplaceRunsChars(s, h);
    var r := ReplaceRuns(s, h);
    forall i | 0 <= i < |r|
      ensures !IsWs(r[i])
    {
      assert r[i] in r;
    }
  }

  /** A string without whitespace is left as it is. */
  lemma {:induction false} ReplaceRunsWord(s: String, h: char)
    requires NoWs(s)
    ensures ReplaceRuns(s, h) == s
    decreases |s|
  {
    if s != [] {
      assert !IsWs(s[0]);
      NoWsTail(s);
      ReplaceRunsWord(s[1..], h);
    }
  }

  lemma {:induction false} RemoveWsDropWs(s: String)
    ensures RemoveWs(DropWs(s)) == RemoveWs(s)
  {
    if s != [] && IsWs(s[0]) {
      RemoveWsDropWs(s[1..]);
    }
  }

  lemma {:induction false} CountDropWs(h: char, s: String)
    requires !IsWs(h)
    ensures Count(h, DropWs(s)) == Count(h, s)
  {
    if s != [] && IsWs(s[0]) {
      CountDropWs(h, s[1..]);
    }
  }

  lemma {:induction false} RemoveCharConcat(a: String, b: String, c: char)
    ensures RemoveChar(a + b, c) == RemoveChar(a, c) + RemoveChar(b, c)
  {
    if a == [] {
      assert a + b == b;
    } else {
      assert (a + b)[1..] == a[1..] + b;
      RemoveCharConcat(a[1..], b, c);
    }
  }

  /** Apart from the h characters, the result of ReplaceRuns holds exactly the
      non-whitespace characters of s, in their order. */
  lemma {:induction false} ReplaceRunsKeepsText(s: String, h: char)
    requires !IsWs(h)
    ensures RemoveChar(ReplaceRuns(s, h), h) == RemoveChar(RemoveWs(s), h)
    decreases |s|
  {
    if s == [] {
    } else if IsWs(s[0]) {
      var d := DropWs(s);
      ReplaceRunsKeepsText(d, h);
      RemoveWsDropWs(s);
      assert ReplaceRuns(s, h) == [h] + ReplaceRuns(d, h);
      assert ([h] + ReplaceRuns(d, h))[1..] == ReplaceRuns(d, h);
    } else {
      ReplaceRunsKeepsText(s[1..], h);
      assert ReplaceRuns(s, h) == [s[0]] + ReplaceRuns(s[1..], h);
      assert ([s[0]] + ReplaceRuns(s[1..], h))[1..] == ReplaceRuns(s[1..], h);
      RemoveCharConcat([s[0]], RemoveWs(s[1..]), h);
    }
  }

  /** ReplaceRuns adds exactly one h per whitespace run. */
  lemma {:induction false} ReplaceRunsCount(s: String, h: char)
    requires !IsWs(h)
    ensures Count(h, ReplaceRuns(s, h)) == Count(h, s) + Runs(s)
    decreases |s|
  {
    if s == [] {
    } else if IsWs(s[0]) {
      var d := DropWs(s);
      ReplaceRunsCount(d, h);
      CountDropWs(h, s);
      assert ([h] + ReplaceRuns(d, h))[1..] == ReplaceRuns(d, h);
    } else {
      ReplaceRunsCount(s[1..], h);
      assert ([s[0]] + ReplaceRuns(s[1..], h))[1..] == ReplaceRuns(s[1..], h);
    }
  }

  /** When s holds no h, ReplaceRuns never puts two h side by side. */
  lemma {:induction false} ReplaceRunsNoDoubled(s: String, h: char)
    requires !IsWs(h) && h !in s
    ensures NoDoubled(ReplaceRuns(s, h), h)
    decreases |s|
  {
    if s == [] {
    } else if IsWs(s[0]) {
      var d := DropWs(s);
      assert forall c :: c in d ==> c in s;
      ReplaceRunsNoDoubled(d, h);
      var t := ReplaceRuns(d, h);
      if t != [] {
        assert t == [d[0]] + ReplaceRuns(d[1..], h);
      }
      NoDoubledCons(h, t, h);
    } else {
      assert s[0] in s;
      ReplaceRunsNoDoubled(s[1..], h);
      NoDoubledCons(s[0], ReplaceRuns(s[1..], h), h);
    }
  }

  lemma NoDoubledCons(c: char, t: String, h: char)
    requires NoDoubled(t, h)
    requires c != h || t == [] || t[0] != h
    ensures NoDoubled([c] + t, h)
  {
    var r := [c] + t;
    forall i | 0 <= i < |r| - 1
      ensures !(r[i] == h && r[i + 1] == h)
    {
      if i > 0 {
        assert r[i] == t[i - 1] && r[i + 1] == t[i];
      }
    }
  }

  /** The tail of a whitespace-free string is whitespace-free. */
  lemma NoWsTail(a: String)
    requires a != [] && NoWs(a)
    ensures NoWs(a[1..])
  {
    forall i | 0 <= i < |a[1..]|
      ensures !IsWs(a[1..][i])
    {
      assert a[1..][i] == a[i + 1];
    }
  }

  lemma ReplaceRunsConsWord(c: char, t: String, h: char)
    requires !IsWs(c)
    ensures ReplaceRuns([c] + t, h) == [c] + ReplaceRuns(t, h)
  {
    assert ([c] + t)[1..] == t;
  }

  /** A whitespace-free prefix passes through ReplaceRuns untouched. */
  lemma {:induction false} ReplaceRunsAfterWord(a: String, b: String, h: char)
    requires NoWs(a)
    ensures ReplaceRuns(a + b, h) == a + ReplaceRuns(b, h)
  {
    if a == [] {
      assert a + b == b;
    } else {
      NoWsTail(a);
      ReplaceRunsAfterWord(a[1..], b, h);
      AfterWordStep(a, b, h);
    }
  }

  lemma AfterWordStep(a: String, b: String, h: char)
    requires a != [] && !IsWs(a[0])
    requires ReplaceRuns(a[1..] + b, h) == a[1..] + ReplaceRuns(b, h)
    ensures ReplaceRuns(a + b, h) == a + ReplaceRuns(b, h)
  {
    ConsConcat(a, b);
    ReplaceRunsCons(a[0], a[1..] + b, h);
    ConsConcat(a, ReplaceRuns(b, h));
  }

  lemma ReplaceRunsCons(c: char, t: String, h: char)
    requires !IsWs(c)
    ensures ReplaceRuns([c] + t, h) == [c] + ReplaceRuns(t, h)
  {
    assert ([c] + t)[0] == c && ([c] + t)[1..] == t;
  }

  lemma ConsConcat(a: String, b: String)
    requires a != []
    ensures [a[0]] + (a[1..] + b) == a + b
  {
    assert [a[0]] + a[1..] == a;
  }

  lemma {:induction false} JoinConsFirst(c: char, x: seq<String>, sep: String)
    requires |x| >= 1
    ensures Join([[c] + x[0]] + x[1..], sep) == [c] + Join(x, sep)
  {
    var y := [[c] + x[0]] + x[1..];
    assert y[1..] == x[1..];
  }

  /** Replacing each whitespace run by h is joining the `split(/\s+/)` pieces with h. */
  lemma {:induction false} ReplaceRunsIsJoinOfPieces(s: String, h: char)
    ensures ReplaceRuns(s, h) == Join(SplitWs(s), [h])
    decreases |s|
  {
    if s == [] {
    } else if IsWs(s[0]) {
      var d := DropWs(s);
      ReplaceRunsIsJoinOfPieces(d, h);
      var x := SplitWs(d);
      assert ([[]] + x)[1..] == x;
    } else {
      ReplaceRunsIsJoinOfPieces(s[1..], h);
      JoinConsFirst(s[0], SplitWs(s[1..]), [h]);
    }
  }

  lemma SplitWsConsWord(c: char, t: String)
    requires !IsWs(c)
    ensures SplitWs([c] + t) == [[c] + SplitWs(t)[0]] + SplitWs(t)[1..]
  {
    assert ([c] + t)[1..] == t;
  }

  /** A whitespace-free prefix becomes the start of the first piece. */
  lemma {:induction false} SplitWsAfterWord(w: String, t: String)
    requires NoWs(w)
    ensures SplitWs(w + t) == [w + SplitWs(t)[0]] + SplitWs(t)[1..]
  {
    var st := SplitWs(t);
    if w == [] {
      assert w + t == t;
      assert w + st[0] == st[0];
      assert [st[0]] + st[1..] == st;
    } else {
      NoWsTail(w);
      SplitWsAfterWord(w[1..], t);
      ConsConcat(w, t);
      SplitWsConsWord(w[0], w[1..] + t);
      var rest := SplitWs(w[1..] + t);
      assert rest[0] == w[1..] + st[0] && rest[1..] == st[1..];
      ConsConcat(w, st[0]);
    }
  }

  /** A space in front of a text that starts with a word adds an empty first piece. */
  lemma SplitWsAfterSpace(j: String)
    requires j != [] && !IsWs(j[0])
    ensures SplitWs(" " + j) == [[]] + SplitWs(j)
  {
    var sj := " " + j;
    assert sj[0] == ' ' && sj[1..] == j;
    assert DropWs(sj) == j;
  }

  /** Joined non-empty words start with the first word's first character. */
  lemma JoinStartsWithFirstWord(ws: seq<String>, sep: String)
    requires |ws| >= 1 && ws[0] != []
    ensures Join(ws, sep) != [] && Join(ws, sep)[0] == ws[0][0]
  {
    if |ws| > 1 {
      assert Join(ws, sep) == ws[0] + sep + Join(ws[1..], sep);
    }
  }

  /** Words of non-whitespace characters joined by single spaces split back into those words:
      so the read-time word count of such a text is its number of words. */
  lemma {:induction false} SplitWsOfJoinedWords(ws: seq<String>)
    requires |ws| >= 1
    requires forall i :: 0 <= i < |ws| ==> ws[i] != [] && NoWs(ws[i])
    ensures SplitWs(Join(ws, " ")) == ws
  {
    if |ws| == 1 {
      SplitOneWord(ws[0]);
    } else {
      var rest := ws[1..];
      SplitWsOfJoinedWords(rest);
      JoinStartsWithFirstWord(rest, " ");
      JoinSpaceCons(ws);
      WordSpaceRest(ws[0], Join(rest, " "), rest);
      assert [ws[0]] + rest == ws;
    }
  }

  lemma SplitOneWord(w: String)
    requires NoWs(w)
    ensures SplitWs(w) == [w]
  {
    SplitWsAfterWord(w, []);
    assert w + [] == w;
  }

  lemma JoinSpaceCons(ws: seq<String>)
    requires |ws| >= 2
    ensures Join(ws, " ") == ws[0] + (" " + Join(ws[1..], " "))
  {
  }

  lemma WordSpaceRest(w: String, j: String, rest: seq<String>)
    requires NoWs(w) && j != [] && !IsWs(j[0]) && SplitWs(j) == rest
    ensures SplitWs(w + (" " + j)) == [w] + rest
  {
    SplitWsAfterSpace(j);
    SplitWsAfterWord(w, " " + j);
    JoinedWordsTail(w, rest);
  }

  lemma JoinedWordsTail(w: String, rest: seq<String>)
    ensures [w + ([[]] + rest)[0]] + ([[]] + rest)[1..] == [w] + rest
  {
    assert w + [] == w;
    assert ([[]] + rest)[1..] == rest;
  }

  // ---------------------------------------------------------------------------
  // Splitting on a delimiter and joining
  // ---------------------------------------------------------------------------

  /** `parts.join(sep)`. */
  function Join(parts: seq<String>, sep: String): String {
    if |parts| == 0 then []
    else if |parts| == 1 then parts[0]
    else parts[0] + sep + Join(parts[1..], sep)
  }

  /** `s.split(d)` for a one-character delimiter d: always at least one piece. */
  function SplitOn(s: String, d: char): (r: seq<String>)
    ensures |r| >= 1
  {
    if s == [] then [[]]
    else
      var rest := SplitOn(s[1..], d);
      if s[0] == d then [[]] + rest
      else [[s[0]] + rest[0]] + rest[1..]
  }

  /** One piece more than there are delimiters, none holding d, and joining them with d
      gives s back. */
  lemma {:induction false} SplitOnShape(s: String, d: char)
    ensures |SplitOn(s, d)| == Count(d, s) + 1
    ensures forall i :: 0 <= i < |SplitOn(s, d)| ==> d !in SplitOn(s, d)[i]
    ensures Join(SplitOn(s, d), [d]) == s
  {
    SplitOnCount(s, d);
    SplitOnPieces(s, d);
    SplitOnJoin(s, d);
  }

  lemma {:induction false} SplitOnCount(s: String, d: char)
    ensures |SplitOn(s, d)| == Count(d, s) + 1
  {
    if s != [] {
      SplitOnCount(s[1..], d);
    }
  }

  lemma {:induction false} SplitOnPieces(s: String, d: char)
    ensures forall i :: 0 <= i < |SplitOn(s, d)| ==> d !in SplitOn(s, d)[i]
  {
    if s != [] {
      var rest := SplitOn(s[1..], d);
      SplitOnPieces(s[1..], d);
      var r := SplitOn(s, d);
      if s[0] == d {
        assert r == [[]] + rest;
        forall i | 0 <= i < |r|
          ensures d !in r[i]
        {
          if i > 0 {
            assert r[i] == rest[i - 1];
          }
        }
      } else {
        assert r == [[s[0]] + rest[0]] + rest[1..];
        forall i | 0 <= i < |r|
          ensures d !in r[i]
        {
          if i > 0 {
            assert r[i] == rest[i];
          } else {
            assert d !in rest[0];
          }
        }
      }
    }
  }

  lemma {:induction false} SplitOnJoin(s: String, d: char)
    ensures Join(SplitOn(s, d), [d]) == s
  {
    if s != [] {
      var rest := SplitOn(s[1..], d);
      SplitOnJoin(s[1..], d);
      if s[0] == d {
        JoinEmptyFirst(rest, [d]);
        assert s == [d] + s[1..];
      } else {
        JoinConsFirst(s[0], rest, [d]);
        assert s == [s[0]] + s[1..];
      }
    }
  }

  lemma JoinEmptyFirst(x: seq<String>, sep: String)
    requires |x| >= 1
    ensures Join([[]] + x, sep) == sep + Join(x, sep)
  {
    assert ([[]] + x)[1..] == x;
  }

  /** Splitting at a delimiter distributes over the delimiter. */
  lemma {:induction false} SplitOnAround(a: String, b: String, d: char)
    ensures SplitOn(a + [d] + b, d) == SplitOn(a, d) + SplitOn(b, d)
  {
    var s := a + [d] + b;
    var y := SplitOn(b, d);
    if a == [] {
      assert s[0] == d && s[1..] == b;
      assert SplitOn(s, d) == [[]] + y;
    } else {
      assert s[0] == a[0] && s[1..] == a[1..] + [d] + b;
      SplitOnAround(a[1..], b, d);
      var x := SplitOn(a[1..], d);
      assert SplitOn(s[1..], d) == x + y;
      if a[0] == d {
        assert SplitOn(s, d) == [[]] + (x + y);
      } else {
        SplitOnCons(a[0], x, y);
      }
    }
  }

  lemma SplitOnCons(c: char, x: seq<String>, y: seq<String>)
    requires |x| >= 1
    ensures [[c] + (x + y)[0]] + (x + y)[1..] == ([[c] + x[0]] + x[1..]) + y
  {
    assert (x + y)[0] == x[0];
    assert (x + y)[1..] == x[1..] + y;
  }
}
