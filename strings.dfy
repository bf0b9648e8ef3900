/**
 * The three JavaScript string builtins the transcript buffer relies on:
 * `String.prototype.trim`, `text.split(/\s+/).length` and `Array.prototype.join`.
 * `trim` and the regular-expression class `\s` use the same set of characters
 * (ECMAScript WhiteSpace and LineTerminator), modelled by IsSpace.
 */
module Strings {

  /** ECMAScript WhiteSpace and LineTerminator code points. */
  predicate IsSpace(c: char) {
    c == '\t' || c == '\n' || c == '\U{000B}' || c == '\U{000C}' || c == '\r' || c == ' '
    || c == '\U{00A0}' || c == '\U{1680}' || ('\U{2000}' <= c <= '\U{200A}')
    || c == '\U{2028}' || c == '\U{2029}' || c == '\U{202F}' || c == '\U{205F}'
    || c == '\U{3000}' || c == '\U{FEFF}'
  }

  ghost predicate AllSpace(s: string) {
    forall i :: 0 <= i < |s| ==> IsSpace(s[i])
  }

  /** A word as the speech producer emits it: non-empty, with no whitespace inside. */
  ghost predicate IsWord(w: string) {
    w != [] && forall i :: 0 <= i < |w| ==> !IsSpace(w[i])
  }

  ghost predicate AllWords(ws: seq<string>) {
    forall i :: 0 <= i < |ws| ==> IsWord(ws[i])
  }

  /** Drops leading whitespace. */
  function TrimStart(s: string): string {
    if s != [] && IsSpace(s[0]) then TrimStart(s[1..]) else s
  }

  /** Drops trailing whitespace. */
  function TrimEnd(s: string): string {
    if s != [] && IsSpace(s[|s| - 1]) then TrimEnd(s[..|s| - 1]) else s
  }

  /** `s.trim()`. */
  function Trim(s: string): string {
    TrimEnd(TrimStart(s))
  }

  /** TrimStart keeps a suffix, and what it drops is whitespace. */
  lemma {:induction false} TrimStartSpec(s: string)
    ensures var r := TrimStart(s);
      |r| <= |s| && r == s[|s| - |r|..] && AllSpace(s[..|s| - |r|]) && (r != [] ==> !IsSpace(r[0]))
  {
    if s != [] && IsSpace(s[0]) {
      TrimStartSpec(s[1..]);
      var r := TrimStart(s);
      assert s[1..][|s| - 1 - |r|..] == s[|s| - |r|..];
      forall i | 0 <= i < |s| - |r| ensures IsSpace(s[i]) {
        if i > 0 { assert s[i] == s[1..][..|s| - 1 - |r|][i - 1]; }
      }
    }
  }

  /** TrimEnd keeps a prefix, and what it drops is whitespace. */
  lemma {:induction false} TrimEndSpec(s: string)
    ensures var r := TrimEnd(s);
      |r| <= |s| && r == s[..|r|] && AllSpace(s[|r|..]) && (r != [] ==> !IsSpace(r[|r| - 1]))
  {
    if s != [] && IsSpace(s[|s| - 1]) {
      var p := s[..|s| - 1];
      TrimEndSpec(p);
      var r := TrimEnd(s);
      assert p[..|r|] == s[..|r|];
      forall i | |r| <= i < |s| ensures IsSpace(s[i]) {
        if i < |s| - 1 { assert s[i] == p[|r|..][i - |r|]; }
      }
      assert s[|r|..] == s[|r|..];
    }
  }

  /**
   * Trim removes only whitespace, from both ends, keeps everything in
   * between, and leaves no whitespace at either end.
   */
  lemma TrimSlice(s: string)
    ensures var r := Trim(s); var i := |s| - |TrimStart(s)|;
      0 <= i && i + |r| <= |s| && r == s[i..i + |r|] && AllSpace(s[..i]) && AllSpace(s[i + |r|..])
      && (r != [] ==> !IsSpace(r[0]) && !IsSpace(r[|r| - 1]))
  {
    var t := TrimStart(s);
    TrimStartSpec(s);
    TrimEndSpec(t);
    var i := |s| - |t|;
    var r := TrimEnd(t);
    assert t == s[i..];
    assert r == t[..|r|];
    assert r == s[i..i + |r|];
    assert t[|r|..] == s[i + |r|..];
  }

  /** A text is ignored by the buffer exactly when it is made of whitespace only. */
  lemma TrimEmptyIff(s: string)
    ensures Trim(s) == [] <==> AllSpace(s)
  {
    TrimSlice(s);
    var t := TrimStart(s);
    if Trim(s) == [] {
      TrimStartSpec(s);
      TrimEndSpec(t);
      assert t == [];
      assert s[..|s|] == s;
    } else if AllSpace(s) {
      assert false;
    }
  }

  /** Trimming twice is trimming once. */
  lemma TrimIdempotent(s: string)
    ensures Trim(Trim(s)) == Trim(s)
  {
    TrimSlice(s);
  }

  /** `parts.join(sep)`. */
  function Join(parts: seq<string>, sep: string): string {
    if |parts| == 0 then ""
    else if |parts| == 1 then parts[0]
    else parts[0] + sep + Join(parts[1..], sep)
  }

  /** Appending a part adds one separator, unless the list was empty. */
  lemma {:induction false} JoinAppend(parts: seq<string>, p: string, sep: string)
    ensures Join(parts + [p], sep) == if parts == [] then p else Join(parts, sep) + sep + p
  {
    if |parts| >= 2 {
      assert (parts + [p])[1..] == parts[1..] + [p];
      JoinAppend(parts[1..], p, sep);
    } else if |parts| == 1 {
      assert (parts + [p])[1..] == [p];
    }
  }

  /**
   * Number of maximal whitespace runs in `s`, counted by the position
   * where each run ends.
   */
  function SpaceRuns(s: string): nat {
    if s == [] then 0
    else (if IsSpace(s[0]) && (|s| == 1 || !IsSpace(s[1])) then 1 else 0) + SpaceRuns(s[1..])
  }

  /**
   * `s.split(/\s+/).length`: one piece more than there are whitespace runs
   * (the empty string splits into one empty piece).
   */
  function SplitCount(s: string): (r: nat)
    ensures r >= 1
  {
    1 + SpaceRuns(s)
  }

  /** A prefix without whitespace adds no run. */
  lemma {:induction false} SpaceRunsAfterWord(a: string, u: string)
    requires forall i :: 0 <= i < |a| ==> !IsSpace(a[i])
    ensures SpaceRuns(a + u) == SpaceRuns(u)
  {
    if a != [] {
      assert (a + u)[0] == a[0] && !IsSpace(a[0]);
      assert (a + u)[1..] == a[1..] + u;
      SpaceRunsAfterWord(a[1..], u);
    } else {
      assert a + u == u;
    }
  }

  /** Under the producer's guarantee, splitting a joined line gives back its word count. */
  lemma {:induction false} SplitCountJoin(ws: seq<string>)
    requires |ws| >= 1 && AllWords(ws)
    ensures SplitCount(Join(ws, " ")) == |ws|
  {
    if |ws| == 1 {
      SpaceRunsAfterWord(ws[0], "");
      assert ws[0] + "" == ws[0];
    } else {
      var rest := Join(ws[1..], " ");
      SplitCountJoin(ws[1..]);
      assert rest[0] == ws[1][0];
      assert Join(ws, " ") == ws[0] + (" " + rest);
      SpaceRunsAfterWord(ws[0], " " + rest);
      assert (" " + rest)[1..] == rest;
    }
  }
}
