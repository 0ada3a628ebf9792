/** Matching file names against patterns with wild cards (easylogging++). */
module WildCards {
  /** What one character of a pattern stands for. */
  predicate StandsFor(c: char, piece: string) {
    if c == '?' then |piece| == 1 else c == '*' || piece == [c]
  }

  function Join(pieces: seq<string>): string {
    if pieces == [] then "" else pieces[0] + Join(pieces[1..])
  }

  /** The string is cut into one piece for each character of the pattern, each what its character stands for. */
  ghost predicate Cut(pattern: string, str: string, pieces: seq<string>) {
    |pieces| == |pattern| && Join(pieces) == str && forall i :: 0 <= i < |pattern| ==> StandsFor(pattern[i], pieces[i])
  }

  /** The pattern denotes the whole string. */
  ghost predicate Denotes(pattern: string, str: string) {
    exists pieces: seq<string> :: Cut(pattern, str, pieces)
  }

  lemma CutCons(pattern: string, str: string, piece: string, rest: string, pieces: seq<string>)
    requires pattern != "" && str == piece + rest && StandsFor(pattern[0], piece) && Cut(pattern[1..], rest, pieces)
    ensures Cut(pattern, str, [piece] + pieces)
  {
    assert ([piece] + pieces)[1..] == pieces;
  }

  lemma CutRest(pattern: string, str: string, pieces: seq<string>)
    requires pattern != "" && Cut(pattern, str, pieces)
    ensures StandsFor(pattern[0], pieces[0]) && str == pieces[0] + Join(pieces[1..])
    ensures Cut(pattern[1..], Join(pieces[1..]), pieces[1..])
  {
  }

  /** The empty pattern denotes the empty string only. */
  lemma DenotesEmpty(str: string)
    ensures Denotes("", str) <==> str == ""
  {
    if str == "" {
      assert Cut("", "", []);
    }
  }

  /** A pattern that begins with a single character. */
  lemma DenotesOne(pattern: string, str: string)
    requires pattern != "" && pattern[0] != '*'
    ensures Denotes(pattern, str) <==>
      str != "" && (pattern[0] == '?' || str[0] == pattern[0]) && Denotes(pattern[1..], str[1..])
  {
    if Denotes(pattern, str) {
      var pieces :| Cut(pattern, str, pieces);
      CutRest(pattern, str, pieces);
      assert str[1..] == Join(pieces[1..]);
    }
    if str != "" && (pattern[0] == '?' || str[0] == pattern[0]) && Denotes(pattern[1..], str[1..]) {
      var pieces :| Cut(pattern[1..], str[1..], pieces);
      CutCons(pattern, str, [str[0]], str[1..], pieces);
    }
  }

  /** A pattern that begins with a star: the star takes nothing, or one more character. */
  lemma DenotesStar(pattern: string, str: string)
    requires pattern != "" && pattern[0] == '*'
    ensures Denotes(pattern, str) <==> Denotes(pattern[1..], str) || (str != "" && Denotes(pattern, str[1..]))
  {
    if Denotes(pattern, str) {
      var pieces :| Cut(pattern, str, pieces);
      CutRest(pattern, str, pieces);
      if pieces[0] == "" {
        assert str == Join(pieces[1..]);
      } else {
        CutCons(pattern, str[1..], pieces[0][1..], Join(pieces[1..]), pieces[1..]);
      }
    }
    if Denotes(pattern[1..], str) {
      var pieces :| Cut(pattern[1..], str, pieces);
      CutCons(pattern, str, "", str, pieces);
    }
    if str != "" && Denotes(pattern, str[1..]) {
      var pieces :| Cut(pattern, str[1..], pieces);
      CutRest(pattern, str[1..], pieces);
      assert str == [str[0]] + str[1..];
      CutCons(pattern, str, [str[0]] + pieces[0], Join(pieces[1..]), pieces[1..]);
    }
  }

  /** Terminates, and answers whether the pattern denotes the string. */
  method WildCardMatch(str: string, pattern: string) returns (matches: bool)
    ensures matches <==> Denotes(pattern, str)
    decreases |pattern| + |str|
  {
    var s, p := str, pattern;
    while p != ""
      invariant |p| + |s| <= |pattern| + |str|
      invariant Denotes(p, s) <==> Denotes(pattern, str)
      decreases |p|
    {
      if p[0] == '*' {
        DenotesStar(p, s);
        matches := WildCardMatch(s, p[1..]);
        if matches {
          return true;
        }
        if s != "" {
          matches := WildCardMatch(s[1..], p);
          if matches {
            return true;
          }
        }
        return false;
      }
      DenotesOne(p, s);
      if p[0] == '?' {
        if s == "" {
          return false;
        }
      } else if s == "" || s[0] != p[0] {
        return false;
      }
      s, p := s[1..], p[1..];
    }
    DenotesEmpty(s);
    return s == "";
  }
}
