/** The request-body trimmer of middleware/helpers.js.
    The middleware serialises the body to JSON text, replaces every match of
    the global pattern `(\s)*"(\s)*` by a single `"`, and parses the text
    again. This module models the replacement on the serialised text. */
module Helpers {

  /** ECMAScript's LineTerminator code points: LF, CR, LINE SEPARATOR, PARAGRAPH SEPARATOR. */
  const LineTerminators: set<char> := {'\n', '\r', '\U{2028}', '\U{2029}'}

  /** The Unicode space separators (category Zs). */
  const SpaceSeparators: set<char> :=
    {' ', '\U{a0}', '\U{1680}', '\U{2000}', '\U{2001}', '\U{2002}', '\U{2003}', '\U{2004}',
     '\U{2005}', '\U{2006}', '\U{2007}', '\U{2008}', '\U{2009}', '\U{200a}', '\U{202f}',
     '\U{205f}', '\U{3000}'}

  /** ECMAScript's WhiteSpace code points: TAB, VT, FF, ZERO WIDTH NO-BREAK SPACE
      and the space separators. */
  const WhiteSpace: set<char> := {'\t', '\U{b}', '\U{c}', '\U{feff}'} + SpaceSeparators

  /** JavaScript's `\s`, as a table of code points. */
  predicate IsWs(c: char) {
    c == '\t' || c == '\n' || c == '\U{b}' || c == '\U{c}' || c == '\r' || c == ' ' ||
    c == '\U{a0}' || c == '\U{1680}' || ('\U{2000}' <= c <= '\U{200a}') ||
    c == '\U{2028}' || c == '\U{2029}' || c == '\U{202f}' || c == '\U{205f}' ||
    c == '\U{3000}' || c == '\U{feff}'
  }

  const Quote: char := '"'

  /** The table is exactly ECMAScript's WhiteSpace and LineTerminator code points. */
  lemma IsWsIsEcmaScriptWhitespace(c: char)
    ensures IsWs(c) <==> c in WhiteSpace || c in LineTerminators
  {
  }

  /** Length of the longest whitespace prefix of s: what a greedy `(\s)*` consumes. */
  function WsRun(s: seq<char>): (n: nat)
    ensures n <= |s|
    ensures forall i :: 0 <= i < n ==> IsWs(s[i])
    ensures n < |s| ==> !IsWs(s[n])
  {
    if s != [] && IsWs(s[0]) then 1 + WsRun(s[1..]) else 0
  }

  /** The pattern matches at the head of s: a whitespace run, then a quote. */
  predicate MatchesAt(s: seq<char>) {
    WsRun(s) < |s| && s[WsRun(s)] == Quote
  }

  /** Where the match at the head of s ends: after the quote and the
      whitespace run that follows it. */
  function MatchEnd(s: seq<char>): (k: nat)
    requires MatchesAt(s)
    ensures WsRun(s) < k <= |s|
    ensures forall i :: WsRun(s) < i < k ==> IsWs(s[i])
    ensures k < |s| ==> !IsWs(s[k])
  {
    var j := WsRun(s);
    j + 1 + WsRun(s[j + 1..])
  }

  /** The global replacement of the pattern by one quote: scan from the left; where the pattern
      matches, emit one quote and resume after the match, otherwise copy one
      character and try again at the next position. */
  function Trim(s: seq<char>): (r: seq<char>)
    ensures |r| <= |s|
    decreases |s|
  {
    if s == [] then []
    else if MatchesAt(s) then [Quote] + Trim(s[MatchEnd(s)..])
    else [s[0]] + Trim(s[1..])
  }

  // ---------------------------------------------------------------------
  // Vocabulary for the properties

  /** r arises from s by deleting some whitespace characters and nothing else. */
  ghost predicate DeletesWs(s: seq<char>, r: seq<char>)
    decreases |s|
  {
    if s == [] then r == []
    else
      (IsWs(s[0]) && DeletesWs(s[1..], r))
      || (r != [] && r[0] == s[0] && DeletesWs(s[1..], r[1..]))
  }

  /** The non-whitespace characters of s, in order. */
  function NonWs(s: seq<char>): seq<char> {
    if s == [] then [] else (if IsWs(s[0]) then [] else [s[0]]) + NonWs(s[1..])
  }

  /** Number of occurrences of c in s. */
  function Count(s: seq<char>, c: char): nat {
    if s == [] then 0 else (if s[0] == c then 1 else 0) + Count(s[1..], c)
  }

  /** No whitespace character sits directly before or after a quote. */
  ghost predicate NoPaddedQuote(s: seq<char>) {
    forall i :: 0 <= i < |s| - 1 ==>
      !(s[i] == Quote && IsWs(s[i + 1])) && !(IsWs(s[i]) && s[i + 1] == Quote)
  }

  /** The nearest non-whitespace character at or after the head of s is a quote. */
  predicate NextNonWsIsQuote(s: seq<char>)
    decreases |s|
  {
    s != [] && (s[0] == Quote || (IsWs(s[0]) && NextNonWsIsQuote(s[1..])))
  }

  /** An independent, character-by-character statement of the same
      replacement: a whitespace character is dropped exactly when the nearest
      non-whitespace character on its left (afterQuote) or on its right is a
      quote; every other character is kept. */
  function TrimByNeighbours(s: seq<char>, afterQuote: bool): seq<char>
    decreases |s|
  {
    if s == [] then []
    else if IsWs(s[0]) && (afterQuote || NextNonWsIsQuote(s)) then TrimByNeighbours(s[1..], afterQuote)
    else [s[0]] + TrimByNeighbours(s[1..], s[0] == Quote)
  }

  // ---------------------------------------------------------------------
  // Only whitespace is deleted

  /** Prepending whitespace to s keeps r a whitespace deletion. */
  lemma {:induction false} SkipWs(s: seq<char>, n: nat, r: seq<char>)
    requires n <= |s|
    requires forall i :: 0 <= i < n ==> IsWs(s[i])
    requires DeletesWs(s[n..], r)
    ensures DeletesWs(s, r)
    decreases n
  {
    if n > 0 {
      SkipWs(s[1..], n - 1, r);
      assert s[1..][n - 1..] == s[n..];
    }
  }

  lemma {:induction false} TrimDeletesWs(s: seq<char>)
    ensures DeletesWs(s, Trim(s))
    decreases |s|
  {
    if s == [] {
    } else if MatchesAt(s) {
      var j, k := WsRun(s), MatchEnd(s);
      var t := s[j + 1..];
      TrimDeletesWs(s[k..]);
      assert t[k - j - 1..] == s[k..];
      SkipWs(t, k - j - 1, Trim(s[k..]));
      assert s[j..][1..] == t;
      assert DeletesWs(s[j..], [Quote] + Trim(s[k..]));
      SkipWs(s, j, [Quote] + Trim(s[k..]));
    } else {
      TrimDeletesWs(s[1..]);
    }
  }

  /** A whitespace deletion keeps the non-whitespace characters in order. */
  lemma {:induction false} DeletesWsKeepsNonWs(s: seq<char>, r: seq<char>)
    requires DeletesWs(s, r)
    ensures NonWs(r) == NonWs(s)
    ensures |r| <= |s|
    decreases |s|
  {
    if s != [] {
      if IsWs(s[0]) && DeletesWs(s[1..], r) {
        DeletesWsKeepsNonWs(s[1..], r);
      } else {
        DeletesWsKeepsNonWs(s[1..], r[1..]);
        assert r == [r[0]] + r[1..];
      }
    }
  }

  /** Counting a non-whitespace character sees no difference once whitespace is gone. */
  lemma {:induction false} CountNonWs(s: seq<char>, c: char)
    requires !IsWs(c)
    ensures Count(NonWs(s), c) == Count(s, c)
    decreases |s|
  {
    if s != [] {
      CountNonWs(s[1..], c);
      CountAppend((if IsWs(s[0]) then [] else [s[0]]), NonWs(s[1..]), c);
    }
  }

  lemma {:induction false} CountAppend(a: seq<char>, b: seq<char>, c: char)
    ensures Count(a + b, c) == Count(a, c) + Count(b, c)
    decreases |a|
  {
    if a != [] {
      CountAppend(a[1..], b, c);
      assert (a + b)[1..] == a[1..] + b;
    } else {
      assert a + b == b;
    }
  }

  /** The non-whitespace characters of the body come out unchanged and in order,
      and the text never grows. */
  lemma TrimKeepsNonWs(s: seq<char>)
    ensures NonWs(Trim(s)) == NonWs(s)
    ensures |Trim(s)| <= |s|
  {
    TrimDeletesWs(s);
    DeletesWsKeepsNonWs(s, Trim(s));
  }

  /** Every match holds exactly one quote and is replaced by one quote. */
  lemma TrimKeepsQuoteCount(s: seq<char>)
    ensures Count(Trim(s), Quote) == Count(s, Quote)
  {
    TrimKeepsNonWs(s);
    CountNonWs(s, Quote);
    CountNonWs(Trim(s), Quote);
  }

  // ---------------------------------------------------------------------
  // No whitespace is left beside a quote

  /** The first output character: the quote of a match at the head, or the head itself. */
  lemma TrimHead(s: seq<char>)
    requires s != []
    ensures Trim(s) != [] && Trim(s)[0] == (if MatchesAt(s) then Quote else s[0])
  {
  }

  lemma {:induction false} TrimHasNoPaddedQuote(s: seq<char>)
    ensures NoPaddedQuote(Trim(s))
    decreases |s|
  {
    if s != [] {
      var r := Trim(s);
      if MatchesAt(s) {
        var t := s[MatchEnd(s)..];
        TrimHasNoPaddedQuote(t);
        if t != [] {
          TrimHead(t);
        }
        PrependKeepsNoPaddedQuote(Quote, Trim(t));
      } else {
        var t := s[1..];
        TrimHasNoPaddedQuote(t);
        if t != [] {
          TrimHead(t);
          if IsWs(s[0]) {
            assert WsRun(t) == WsRun(s) - 1;
            assert !MatchesAt(t);
          }
        }
        PrependKeepsNoPaddedQuote(s[0], Trim(t));
      }
    }
  }

  lemma PrependKeepsNoPaddedQuote(c: char, t: seq<char>)
    requires NoPaddedQuote(t)
    requires t != [] ==> !(c == Quote && IsWs(t[0])) && !(IsWs(c) && t[0] == Quote)
    ensures NoPaddedQuote([c] + t)
  {
    var s := [c] + t;
    forall i | 0 <= i < |s| - 1
      ensures !(s[i] == Quote && IsWs(s[i + 1])) && !(IsWs(s[i]) && s[i + 1] == Quote)
    {
      if i > 0 {
        assert s[i] == t[i - 1] && s[i + 1] == t[i];
      }
    }
  }

  // ---------------------------------------------------------------------
  // Idempotence

  /** In text with no whitespace beside a quote, a whitespace run never ends in a quote. */
  lemma {:induction false} UnpaddedRunHasNoQuote(s: seq<char>)
    requires NoPaddedQuote(s)
    requires s != [] && IsWs(s[0])
    ensures !MatchesAt(s)
    decreases |s|
  {
    if |s| > 1 {
      assert !(IsWs(s[0]) && s[1] == Quote);
      if IsWs(s[1]) {
        TailKeepsNoPaddedQuote(s);
        UnpaddedRunHasNoQuote(s[1..]);
      }
    }
  }

  lemma TailKeepsNoPaddedQuote(s: seq<char>)
    requires NoPaddedQuote(s) && s != []
    ensures NoPaddedQuote(s[1..])
  {
    forall i | 0 <= i < |s[1..]| - 1
      ensures !(s[1..][i] == Quote && IsWs(s[1..][i + 1]))
      ensures !(IsWs(s[1..][i]) && s[1..][i + 1] == Quote)
    {
      assert s[1..][i] == s[i + 1] && s[1..][i + 1] == s[i + 2];
    }
  }

  /** Text with no whitespace beside any quote is left as it is. */
  lemma {:induction false} TrimFixesUnpadded(s: seq<char>)
    requires NoPaddedQuote(s)
    ensures Trim(s) == s
    decreases |s|
  {
    if s != [] {
      TailKeepsNoPaddedQuote(s);
      TrimFixesUnpadded(s[1..]);
      if IsWs(s[0]) {
        UnpaddedRunHasNoQuote(s);
      } else if s[0] == Quote {
        assert WsRun(s) == 0;
        if |s| > 1 {
          assert !(s[0] == Quote && IsWs(s[1]));
        }
        assert MatchEnd(s) == 1;
      }
    }
  }

  /** Trimming the trimmed body changes nothing. */
  lemma {:induction false} TrimIdempotent(s: seq<char>)
    ensures Trim(Trim(s)) == Trim(s)
  {
    TrimHasNoPaddedQuote(s);
    TrimFixesUnpadded(Trim(s));
  }

  /** A body without any quote is returned unchanged, whatever whitespace it holds. */
  lemma {:induction false} TrimWithoutQuote(s: seq<char>)
    requires Quote !in s
    ensures Trim(s) == s
  {
    TrimFixesUnpadded(s);
  }

  // ---------------------------------------------------------------------
  // The scan agrees with the neighbour rule

  /** The pattern matches at the head of s exactly when some position holds a
      quote with only whitespace before it: the first non-whitespace character
      of s is a quote. */
  lemma MatchesAtFirstNonWs(s: seq<char>)
    ensures MatchesAt(s) <==>
      exists j :: 0 <= j < |s| && s[j] == Quote && forall i :: 0 <= i < j ==> IsWs(s[i])
  {
  }

  /** The scan's match test is the neighbour rule's right-hand test. */
  lemma {:induction false} MatchesAtIffNextNonWsIsQuote(s: seq<char>)
    ensures MatchesAt(s) <==> NextNonWsIsQuote(s)
    decreases |s|
  {
    if s != [] && IsWs(s[0]) {
      MatchesAtIffNextNonWsIsQuote(s[1..]);
    }
  }

  /** Inside a whitespace run that leads to a quote, every character is dropped. */
  lemma {:induction false} NeighboursSkipRunBeforeQuote(s: seq<char>, afterQuote: bool)
    requires MatchesAt(s)
    ensures TrimByNeighbours(s, afterQuote) == TrimByNeighbours(s[WsRun(s)..], afterQuote)
    decreases |s|
  {
    if WsRun(s) > 0 {
      MatchesAtIffNextNonWsIsQuote(s);
      assert WsRun(s[1..]) == WsRun(s) - 1;
      NeighboursSkipRunBeforeQuote(s[1..], afterQuote);
      assert s[1..][WsRun(s) - 1..] == s[WsRun(s)..];
    }
  }

  /** After a quote, the following whitespace run is dropped. */
  lemma {:induction false} NeighboursSkipRunAfterQuote(s: seq<char>)
    ensures TrimByNeighbours(s, true) == TrimByNeighbours(s[WsRun(s)..], false)
    decreases |s|
  {
    if WsRun(s) > 0 {
      NeighboursSkipRunAfterQuote(s[1..]);
      assert s[1..][WsRun(s) - 1..] == s[WsRun(s)..];
    }
  }

  /** The regex scan drops exactly the whitespace whose nearest non-whitespace
      neighbour on either side is a quote, and keeps everything else. */
  lemma {:induction false} TrimMatchesNeighbourRule(s: seq<char>)
    ensures Trim(s) == TrimByNeighbours(s, false)
    decreases |s|
  {
    if s != [] {
      if MatchesAt(s) {
        var j, k := WsRun(s), MatchEnd(s);
        NeighboursSkipRunBeforeQuote(s, false);
        var t := s[j + 1..];
        assert s[j..][1..] == t;
        NeighboursSkipRunAfterQuote(t);
        assert t[WsRun(t)..] == s[k..];
        TrimMatchesNeighbourRule(s[k..]);
      } else {
        MatchesAtIffNextNonWsIsQuote(s);
        assert s[0] != Quote;
        TrimMatchesNeighbourRule(s[1..]);
      }
    }
  }

  // ---------------------------------------------------------------------
  // The replacement is local

  /** A whitespace run inside u stops before u's last character when that is not whitespace. */
  lemma {:induction false} WsRunAppend(u: seq<char>, v: seq<char>)
    requires u != [] && !IsWs(u[|u| - 1])
    ensures WsRun(u + v) == WsRun(u)
    decreases |u|
  {
    if |u| > 1 && IsWs(u[0]) {
      WsRunAppend(u[1..], v);
      assert (u + v)[1..] == u[1..] + v;
    }
  }

  /** A match inside u is the same match inside u + v, and ends before u's last character. */
  lemma MatchAppend(u: seq<char>, v: seq<char>)
    requires u != [] && !IsWs(u[|u| - 1]) && u[|u| - 1] != Quote
    ensures MatchesAt(u + v) == MatchesAt(u)
    ensures MatchesAt(u) ==> MatchEnd(u + v) == MatchEnd(u) < |u|
  {
    WsRunAppend(u, v);
    var j := WsRun(u);
    assert (u + v)[j] == u[j];
    if MatchesAt(u) {
      var t := u[j + 1..];
      assert t != [] && t[|t| - 1] == u[|u| - 1];
      assert (u + v)[j + 1..] == t + v;
      WsRunAppend(t, v);
    }
  }

  /** One step of TrimSplits where u starts with a match that ends inside u. */
  lemma SplitStepAtMatch(u: seq<char>, v: seq<char>)
    requires MatchesAt(u) && MatchesAt(u + v) && MatchEnd(u + v) == MatchEnd(u) < |u|
    requires Trim((u + v)[MatchEnd(u)..]) == Trim(u[MatchEnd(u)..]) + Trim(v)
    ensures Trim(u + v) == Trim(u) + Trim(v)
  {
  }

  /** One step of TrimSplits where u's first character is copied. */
  lemma SplitStepCopy(u: seq<char>, v: seq<char>)
    requires |u| > 1 && !MatchesAt(u) && !MatchesAt(u + v)
    requires Trim((u + v)[1..]) == Trim(u[1..]) + Trim(v)
    ensures Trim(u + v) == Trim(u) + Trim(v)
  {
  }

  /** No match reaches across a character that is neither whitespace nor a quote,
      so the text can be trimmed piecewise around it: whitespace far from quotes
      is kept wherever it sits. */
  lemma {:induction false} TrimSplits(u: seq<char>, v: seq<char>)
    requires u != [] && !IsWs(u[|u| - 1]) && u[|u| - 1] != Quote
    ensures Trim(u + v) == Trim(u) + Trim(v)
    decreases |u|
  {
    MatchAppend(u, v);
    if MatchesAt(u) {
      var k := MatchEnd(u);
      var rest := u[k..];
      assert rest[|rest| - 1] == u[|u| - 1];
      assert (u + v)[k..] == rest + v;
      TrimSplits(rest, v);
      SplitStepAtMatch(u, v);
    } else if |u| > 1 {
      var rest := u[1..];
      assert rest[|rest| - 1] == u[|u| - 1];
      assert (u + v)[1..] == rest + v;
      TrimSplits(rest, v);
      SplitStepCopy(u, v);
    } else {
      assert (u + v)[1..] == v;
    }
  }

  // ---------------------------------------------------------------------
  // Examples of the blunt behaviour

  /** Whitespace away from any quote, as in `a b`, is kept. */
  lemma InteriorSpaceKept()
    ensures Trim("a b") == "a b"
  {
    TrimWithoutQuote("a b");
  }

  /** Greedy matching removes the runs on both sides of a quote, and a space
      between two quotes disappears. */
  lemma RunsAroundQuoteCollapse()
    ensures Trim("  \"  ") == "\""
    ensures Trim("\" \"") == "\"\""
  {
    assert MatchEnd("  \"  ") == 5;
    assert MatchEnd("\" \"") == 2;
    assert "\" \""[2..] == "\"";
    assert MatchEnd("\"") == 1;
  }

  /** The transform does not know about JSON escapes. The body value `say " x`
      serialises as `say \" x`; the escaped quote after the backslash is a quote
      like any other, the space after it is removed, and the value comes back
      as `say "x`. */
  lemma EscapedQuoteLosesSpace(u: seq<char>, w: seq<char>)
    requires u != [] && u[|u| - 1] == '\\'
    requires w == [] || !IsWs(w[0])
    ensures Trim(u + ([Quote, ' '] + w)) == Trim(u) + ([Quote] + Trim(w))
  {
    var t := [Quote, ' '] + w;
    assert !IsWs('\\') && IsWs(' ');
    TrimSplits(u, t);
    assert t[1..] == [' '] + w && ([' '] + w)[1..] == w;
    assert MatchEnd(t) == 2;
    assert t[2..] == w;
  }
}
