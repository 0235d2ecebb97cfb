/** The fragment of ECMAScript string behaviour the services use. */
module Text {

  /** ECMAScript white space and line terminators: what `trim` strips and `\s` matches. */
  predicate IsWhite(c: char) {
    || '\t' <= c <= '\r'
    || c == ' '
    || c == '\U{00A0}'
    || c == '\U{1680}'
    || '\U{2000}' <= c <= '\U{200A}'
    || c == '\U{2028}'
    || c == '\U{2029}'
    || c == '\U{202F}'
    || c == '\U{205F}'
    || c == '\U{3000}'
    || c == '\U{FEFF}'
  }

  /** The characters of ECMAScript's WhiteSpace and LineTerminator, one by one. */
  const WHITE_SPACE: set<char> := {
    '\t', '\n', '\U{000B}', '\U{000C}', '\r', ' ', '\U{00A0}', '\U{1680}', '\U{2000}', '\U{2001}', '\U{2002}',
    '\U{2003}', '\U{2004}', '\U{2005}', '\U{2006}', '\U{2007}', '\U{2008}', '\U{2009}', '\U{200A}', '\U{2028}',
    '\U{2029}', '\U{202F}', '\U{205F}', '\U{3000}', '\U{FEFF}'}

  lemma WhiteCharacters(c: char)
    ensures IsWhite(c) <==> c in WHITE_SPACE
  {
  }

  function TrimStart(s: string): string {
    if s != "" && IsWhite(s[0]) then TrimStart(s[1..]) else s
  }

  function TrimEnd(s: string): string {
    if s != "" && IsWhite(s[|s| - 1]) then TrimEnd(s[..|s| - 1]) else s
  }

  function Trim(s: string): string {
    TrimEnd(TrimStart(s))
  }

  predicate Blank(s: string) {
    forall i | 0 <= i < |s| :: IsWhite(s[i])
  }

  lemma {:induction false} TrimStartSuffix(s: string)
    ensures |TrimStart(s)| <= |s|
    ensures TrimStart(s) == s[|s| - |TrimStart(s)|..]
    ensures Blank(s[..|s| - |TrimStart(s)|])
    ensures TrimStart(s) != "" ==> !IsWhite(TrimStart(s)[0])
  {
    if s != "" && IsWhite(s[0]) {
      TrimStartSuffix(s[1..]);
    }
  }

  lemma {:induction false} TrimEndPrefix(s: string)
    ensures |TrimEnd(s)| <= |s|
    ensures TrimEnd(s) == s[..|TrimEnd(s)|]
    ensures Blank(s[|TrimEnd(s)|..])
    ensures TrimEnd(s) != "" ==> !IsWhite(TrimEnd(s)[|TrimEnd(s)| - 1])
  {
    if s != "" && IsWhite(s[|s| - 1]) {
      var t := s[..|s| - 1];
      TrimEndPrefix(t);
      var k := |TrimEnd(t)|;
      forall i | 0 <= i < |s[k..]| ensures IsWhite(s[k..][i]) {
        if k + i < |t| {
          assert t[k..][i] == s[k..][i];
        }
      }
    }
  }

  /** Trimming leaves nothing exactly when every character is white space. */
  lemma TrimEmptyIffBlank(s: string)
    ensures Trim(s) == "" <==> Blank(s)
  {
    var t := TrimStart(s);
    TrimStartSuffix(s);
    TrimEndPrefix(t);
    if t == "" {
      assert s[..|s|] == s;
    } else {
      assert t[0] == s[|s| - |t|];
    }
  }

  lemma Pieces(s: string, t: string, u: string)
    requires |u| <= |t| <= |s| && t == s[|s| - |t|..] && u == t[..|u|]
    ensures s == s[..|s| - |t|] + (u + t[|u|..])
    ensures u != "" ==> u[0] == t[0]
  {
    assert t == u + t[|u|..];
  }

  /** Trimming cuts white space off both ends, only white space, and all of it. */
  lemma TrimSplits(s: string) returns (before: string, after: string)
    ensures s == before + (Trim(s) + after) && Blank(before) && Blank(after)
    ensures Trim(s) != "" ==> !IsWhite(Trim(s)[0]) && !IsWhite(Trim(s)[|Trim(s)| - 1])
  {
    var t := TrimStart(s);
    TrimStartSuffix(s);
    TrimEndPrefix(t);
    Pieces(s, t, TrimEnd(t));
    before, after := s[..|s| - |t|], t[|TrimEnd(t)|..];
  }

  lemma {:induction false} TrimStartDrops(before: string, rest: string)
    requires Blank(before) && rest != "" && !IsWhite(rest[0])
    ensures TrimStart(before + rest) == rest
  {
    if before == "" {
      assert before + rest == rest;
    } else {
      assert (before + rest)[0] == before[0] && (before + rest)[1..] == before[1..] + rest;
      TrimStartDrops(before[1..], rest);
    }
  }

  lemma {:induction false} TrimEndDrops(rest: string, after: string)
    requires Blank(after) && rest != "" && !IsWhite(rest[|rest| - 1])
    ensures TrimEnd(rest + after) == rest
  {
    if after == "" {
      assert rest + after == rest;
    } else {
      var s, n := rest + after, |after| - 1;
      assert s[|s| - 1] == after[n] && s[..|s| - 1] == rest + after[..n];
      TrimEndDrops(rest, after[..n]);
    }
  }

  /** Text between white space is what trimming leaves. */
  lemma TrimPadded(before: string, text: string, after: string)
    requires forall i | 0 <= i < |before| :: before[i] in WHITE_SPACE
    requires forall i | 0 <= i < |after| :: after[i] in WHITE_SPACE
    requires text != "" && text[0] !in WHITE_SPACE && text[|text| - 1] !in WHITE_SPACE
    ensures Trim(before + (text + after)) == text
  {
    forall c { WhiteCharacters(c); }
    TrimStartDrops(before, text + after);
    TrimEndDrops(text, after);
  }
}
