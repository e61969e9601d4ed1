/** The matcher of file name patterns (lib/nsPsCommon.cpp): a star stands for any text and a question mark
    for any one character. */
module Wildcard {
  const NUL := 0 as char

  /** A string as c_str shows it. */
  function CStr(s: string): string {
    if s == "" || s[0] == NUL then "" else [s[0]] + CStr(s[1..])
  }

  function MatchC(ptn: string, str: string): bool
    decreases |ptn| + |str|
  {
    if ptn == "" then str == ""
    else if ptn[0] == '*' then MatchC(ptn[1..], str) || (str != "" && MatchC(ptn, str[1..]))
    else if ptn[0] == '?' then str != "" && MatchC(ptn[1..], str[1..])
    else str != "" && ptn[0] == str[0] && MatchC(ptn[1..], str[1..])
  }

  function WildStrMatch(ptn: string, str: string): bool {
    MatchC(CStr(ptn), CStr(str))
  }

  // What a pattern means.

  function Concat(pieces: seq<string>): string {
    if pieces == [] then "" else pieces[0] + Concat(pieces[1..])
  }

  predicate PieceOk(c: char, piece: string) {
    c == '*' || (|piece| == 1 && (c == '?' || piece[0] == c))
  }

  /** The string falls into one piece for each character of the pattern. */
  predicate Splits(ptn: string, str: string, pieces: seq<string>) {
    |pieces| == |ptn| && Concat(pieces) == str && forall i :: 0 <= i < |ptn| ==> PieceOk(ptn[i], pieces[i])
  }

  lemma SplitsCons(ptn: string, str: string, piece: string, pieces: seq<string>)
    requires ptn != "" && PieceOk(ptn[0], piece) && Splits(ptn[1..], str, pieces)
    ensures Splits(ptn, piece + str, [piece] + pieces)
  {
    var all := [piece] + pieces;
    assert all[1..] == pieces;
    forall i | 0 <= i < |ptn| ensures PieceOk(ptn[i], all[i]) {
      assert i > 0 ==> ptn[i] == ptn[1..][i - 1] && all[i] == pieces[i - 1];
    }
  }

  lemma SplitsTail(ptn: string, str: string, pieces: seq<string>)
    requires ptn != "" && Splits(ptn, str, pieces)
    ensures PieceOk(ptn[0], pieces[0]) && str == pieces[0] + Concat(pieces[1..])
    ensures Splits(ptn[1..], Concat(pieces[1..]), pieces[1..])
  {
    assert forall i :: 0 <= i < |ptn| - 1 ==> ptn[1..][i] == ptn[i + 1] && pieces[1..][i] == pieces[i + 1];
  }

  lemma {:induction false} MatchSplits(ptn: string, str: string) returns (pieces: seq<string>)
    requires MatchC(ptn, str)
    ensures Splits(ptn, str, pieces)
    decreases |ptn| + |str|
  {
    if ptn == "" {
      pieces := [];
    } else if ptn[0] == '*' && MatchC(ptn[1..], str) {
      var rest := MatchSplits(ptn[1..], str);
      SplitsCons(ptn, str, "", rest);
      assert "" + str == str;
      pieces := [""] + rest;
    } else {
      var head := [str[0]];
      assert str == head + str[1..];
      if ptn[0] == '*' {
        var rest := MatchSplits(ptn, str[1..]);
        SplitsTail(ptn, str[1..], rest);
        SplitsCons(ptn, Concat(rest[1..]), head + rest[0], rest[1..]);
        assert head + rest[0] + Concat(rest[1..]) == str;
        pieces := [head + rest[0]] + rest[1..];
      } else {
        var rest := MatchSplits(ptn[1..], str[1..]);
        SplitsCons(ptn, str[1..], head, rest);
        pieces := [head] + rest;
      }
    }
  }

  lemma {:induction false} SplitsMatch(ptn: string, str: string, pieces: seq<string>)
    requires Splits(ptn, str, pieces)
    ensures MatchC(ptn, str)
    decreases |ptn| + |str|
  {
    if ptn != "" {
      SplitsTail(ptn, str, pieces);
      var first, rest := pieces[0], Concat(pieces[1..]);
      if first == "" {
        assert str == rest;
        SplitsMatch(ptn[1..], rest, pieces[1..]);
      } else if ptn[0] == '*' {
        SplitsCons(ptn, rest, first[1..], pieces[1..]);
        assert str[1..] == first[1..] + rest;
        SplitsMatch(ptn, str[1..], [first[1..]] + pieces[1..]);
      } else {
        assert str[1..] == rest;
        SplitsMatch(ptn[1..], rest, pieces[1..]);
      }
    }
  }

  /** A pattern matches exactly the strings that fall into pieces for its characters. */
  lemma MatchIff(ptn: string, str: string)
    requires NUL !in ptn && NUL !in str
    ensures WildStrMatch(ptn, str) <==> exists pieces :: Splits(ptn, str, pieces)
  {
    CStrWhole(ptn);
    CStrWhole(str);
    if MatchC(ptn, str) {
      var pieces := MatchSplits(ptn, str);
    }
    if pieces :| Splits(ptn, str, pieces) {
      SplitsMatch(ptn, str, pieces);
    }
  }

  lemma CStrWhole(s: string)
    requires NUL !in s
    ensures CStr(s) == s
  {
    if s != "" {
      CStrWhole(s[1..]);
    }
  }

  lemma CutString(s: string, rest: string)
    requires NUL !in s
    ensures CStr(s + [NUL] + rest) == s
  {
    var t := s + [NUL] + rest;
    if s != "" {
      CutString(s[1..], rest);
      assert t[1..] == s[1..] + [NUL] + rest;
    }
  }

  /** What stands behind a zero byte, in the pattern or in the string, has no part in the match. */
  lemma CutAtNul(ptn: string, behindPtn: string, str: string, behindStr: string)
    requires NUL !in ptn && NUL !in str
    ensures WildStrMatch(ptn + [NUL] + behindPtn, str + [NUL] + behindStr) <==> exists pieces :: Splits(ptn, str, pieces)
    ensures WildStrMatch(ptn + [NUL] + behindPtn, str) <==> WildStrMatch(ptn, str)
    ensures WildStrMatch(ptn, str + [NUL] + behindStr) <==> WildStrMatch(ptn, str)
  {
    CutString(ptn, behindPtn);
    CutString(str, behindStr);
    CStrWhole(ptn);
    CStrWhole(str);
    MatchIff(ptn, str);
  }
}
