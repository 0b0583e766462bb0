/** lib/com_util/util.c: GetStrTok, which cuts a string into tokens in place. */
module StrTok {
  import opened Wrappers

  predicate LineEnd(c: char) {
    c == '\n' || c == '\r'
  }

  /** Characters at which a token ends. */
  predicate Stops(c: char, delims: string) {
    c in delims || LineEnd(c)
  }

  // ---------- what repeated calls return ----------

  function Skip(t: string, delims: string): (u: string)
    ensures |u| <= |t|
    ensures u != "" ==> u[0] !in delims
  {
    if t != "" && t[0] in delims then Skip(t[1..], delims) else t
  }

  function TokLen(u: string, delims: string): (n: nat)
    ensures n <= |u|
    ensures forall i | 0 <= i < n :: !Stops(u[i], delims)
    ensures n < |u| ==> Stops(u[n], delims)
  {
    if u == "" || Stops(u[0], delims) then 0
    else
      var n := TokLen(u[1..], delims);
      assert forall i | 1 <= i < n + 1 :: u[i] == u[1..][i - 1];
      n + 1
  }

  /** The tokens of a text: skip delimiters, take what stands before the next stop, and go
      on unless that is a line end. */
  function Tokens(t: string, delims: string): seq<string>
    decreases |t|
  {
    var u := Skip(t, delims);
    if delims == "" || u == "" then []
    else
      var n := TokLen(u, delims);
      [u[..n]] + if n < |u| && !LineEnd(u[n]) then Tokens(u[n + 1..], delims) else []
  }

  /** The text up to the line end that stops it: one that is no delimiter, or one that is
      and comes directly behind a token. */
  function LineFrom(t: string, delims: string, inToken: bool): (l: string)
    ensures |l| <= |t|
  {
    if t == "" || (LineEnd(t[0]) && (inToken || t[0] !in delims)) then ""
    else [t[0]] + LineFrom(t[1..], delims, t[0] !in delims)
  }

  function Line(t: string, delims: string): (l: string) {
    LineFrom(t, delims, false)
  }

  /** When no line end is a delimiter that is the first line. */
  lemma {:induction false} LineIsFirstLine(t: string, delims: string, inToken: bool)
    requires '\n' !in delims && '\r' !in delims
    ensures var l := LineFrom(t, delims, inToken);
      && l == t[..|l|] && (forall i | 0 <= i < |l| :: !LineEnd(l[i])) && (|l| < |t| ==> LineEnd(t[|l|]))
  {
    if t != "" && !LineEnd(t[0]) {
      LineIsFirstLine(t[1..], delims, t[0] !in delims);
    }
  }

  /** All fields between delimiters, empty ones too. */
  function Split(t: string, delims: string): (fields: seq<string>)
    ensures fields != []
  {
    if t == "" then [""]
    else
      var rest := Split(t[1..], delims);
      if t[0] in delims then [""] + rest else [[t[0]] + rest[0]] + rest[1..]
  }

  function NonEmpty(fields: seq<string>): seq<string> {
    if fields == [] then []
    else (if fields[0] == "" then [] else [fields[0]]) + NonEmpty(fields[1..])
  }

  /** Nothing stands between the last delimiter and the end. */
  predicate EndsInDelim(l: string, delims: string) {
    l == "" || l[|l| - 1] in delims
  }

  lemma {:induction false} SplitAt(t: string, delims: string, n: nat)
    requires n < |t| && t[n] in delims && forall i | 0 <= i < n :: t[i] !in delims
    ensures Split(t, delims) == [t[..n]] + Split(t[n + 1..], delims)
  {
    if n > 0 {
      SplitAt(t[1..], delims, n - 1);
      assert t[1..][n..] == t[n + 1..] && [t[0]] + t[1..][..n - 1] == t[..n];
    }
  }

  lemma {:induction false} SplitWhole(t: string, delims: string)
    requires forall i | 0 <= i < |t| :: t[i] !in delims
    ensures Split(t, delims) == [t]
  {
    if t != "" {
      SplitWhole(t[1..], delims);
      assert [t[0]] + t[1..] == t;
    }
  }

  lemma {:induction false} LineAfter(t: string, delims: string, n: nat, inToken: bool)
    requires n <= |t| && forall i | 0 <= i < n :: !Stops(t[i], delims)
    ensures var rest := LineFrom(t[n..], delims, inToken || n > 0);
      && LineFrom(t, delims, inToken) == t[..n] + rest
      && (|LineFrom(t, delims, inToken)| < |t| <==> |rest| < |t[n..]|)
  {
    if n > 0 {
      LineAfter(t[1..], delims, n - 1, true);
      assert t[1..][n - 1..] == t[n..] && [t[0]] + t[1..][..n - 1] == t[..n];
    } else {
      assert t[0..] == t;
    }
  }

  lemma {:induction false} LineSkips(t: string, delims: string, inToken: bool)
    requires t != "" && t[0] in delims && (LineEnd(t[0]) ==> !inToken)
    ensures LineFrom(t, delims, inToken) == [t[0]] + Line(t[1..], delims)
  {
  }

  lemma {:induction false} NonEmptyCons(f: string, fields: seq<string>)
    ensures NonEmpty([f] + fields) == (if f == "" then [] else [f]) + NonEmpty(fields)
  {
    assert ([f] + fields)[1..] == fields;
  }

  /** The empty token that comes last when the line ends right behind a delimiter. */
  function LastEmpty(t: string, delims: string): seq<string> {
    if |Line(t, delims)| < |t| && EndsInDelim(Line(t, delims), delims) then [""] else []
  }

  /** The non-empty fields of the line, in order. */
  function Fields(t: string, delims: string): seq<string> {
    NonEmpty(Split(Line(t, delims), delims))
  }

  lemma {:induction false} LineUpTo(t: string, delims: string, n: nat)
    requires n < |t| && t[n] in delims && (n > 0 ==> !LineEnd(t[n]))
    requires forall i | 0 <= i < n :: !Stops(t[i], delims)
    ensures Line(t, delims) == t[..n + 1] + Line(t[n + 1..], delims)
    ensures LastEmpty(t, delims) == LastEmpty(t[n + 1..], delims)
  {
    hide LineFrom, Stops;
    LineAfter(t, delims, n, false);
    LineSkips(t[n..], delims, n > 0);
    assert t[n..][1..] == t[n + 1..] && t[..n + 1] == t[..n] + [t[n]];
  }

  lemma {:induction false} FieldsAfter(t: string, delims: string, n: nat)
    requires n < |t| && t[n] in delims && (n > 0 ==> !LineEnd(t[n]))
    requires forall i | 0 <= i < n :: !Stops(t[i], delims)
    ensures Fields(t, delims) == (if n == 0 then [] else [t[..n]]) + Fields(t[n + 1..], delims)
  {
    hide Split, NonEmpty, Line, LineEnd;
    var l, rest := Line(t, delims), t[n + 1..];
    LineUpTo(t, delims, n);
    assert l[n] == t[n] && forall i | 0 <= i < n :: l[i] == t[i];
    SplitAt(l, delims, n);
    assert l[..n] == t[..n] && l[n + 1..] == Line(rest, delims);
    NonEmptyCons(t[..n], Split(Line(rest, delims), delims));
  }

  lemma {:induction false} TokensSkip(t: string, delims: string)
    requires t != "" && t[0] in delims
    ensures Tokens(t, delims) == Tokens(t[1..], delims)
  {
    assert Skip(t, delims) == Skip(t[1..], delims);
    hide TokLen, LineEnd, Skip;
  }

  lemma {:induction false} TokensAfter(t: string, delims: string, n: nat)
    requires 0 < n < |t| && t[n] in delims && !LineEnd(t[n])
    requires forall i | 0 <= i < n :: !Stops(t[i], delims)
    ensures Tokens(t, delims) == [t[..n]] + Tokens(t[n + 1..], delims)
  {
    TokLenIs(t, delims, n);
    assert !Stops(t[0], delims) && Skip(t, delims) == t;
    hide TokLen, Skip, Stops;
  }

  lemma {:induction false} TokLenIs(u: string, delims: string, n: nat)
    requires n <= |u| && (n < |u| ==> Stops(u[n], delims))
    requires forall i | 0 <= i < n :: !Stops(u[i], delims)
    ensures TokLen(u, delims) == n
  {
    var m := TokLen(u, delims);
    hide TokLen, Stops;
    assert m < |u| ==> Stops(u[m], delims);
  }

  /** The last token of a text that has no further delimiter. */
  lemma {:induction false} LastToken(t: string, delims: string)
    requires delims != "" && t != "" && t[0] !in delims
    requires var n := TokLen(t, delims); n < |t| ==> LineEnd(t[n])
    ensures Tokens(t, delims) == Fields(t, delims) + LastEmpty(t, delims)
  {
    var n := TokLen(t, delims);
    LineAfter(t, delims, n, false);
    assert Line(t, delims) == t[..n];
    SplitWhole(t[..n], delims);
    NonEmptyCons(t[..n], []);
    assert [t[..n]] + [] == [t[..n]];
    hide TokLen, LineFrom, Split;
  }

  lemma {:induction false} NoTokens(delims: string)
    ensures Tokens("", delims) == Fields("", delims) == LastEmpty("", delims) == []
  {
    NonEmptyCons("", []);
    assert [""] + [] == [""];
  }

  /** What the tokens of a text are: the non-empty fields of its line, in order, and an
      empty one at the end when the line ends right behind a delimiter. */
  lemma {:induction false} TokensAreFields(t: string, delims: string)
    requires delims != ""
    ensures Tokens(t, delims) == Fields(t, delims) + LastEmpty(t, delims)
    decreases |t|
  {
    hide Tokens, Fields, LastEmpty, TokLen;
    if t == "" {
      NoTokens(delims);
    } else if t[0] in delims {
      TokensAreFields(t[1..], delims);
      LineUpTo(t, delims, 0);
      FieldsAfter(t, delims, 0);
      TokensSkip(t, delims);
    } else {
      var n := TokLen(t, delims);
      if n < |t| && !LineEnd(t[n]) {
        TokensAreFields(t[n + 1..], delims);
        LineUpTo(t, delims, n);
        FieldsAfter(t, delims, n);
        TokensAfter(t, delims, n);
      } else {
        LastToken(t, delims);
      }
    }
  }

  // ---------- the string in memory ----------

  /** The C string that starts at p. */
  function Text(s: seq<char>, p: nat): string
    decreases |s| - p
  {
    if p >= |s| || s[p] == '\0' then "" else [s[p]] + Text(s, p + 1)
  }

  ghost predicate Terminated(s: seq<char>, p: nat) {
    exists k :: p <= k < |s| && s[k] == '\0'
  }

  lemma {:induction false} TextFrom(s: seq<char>, p: nat, q: nat)
    requires p <= q <= |s| && forall i | p <= i < q :: s[i] != '\0'
    ensures Text(s, p) == s[p..q] + Text(s, q)
    decreases q - p
  {
    if p < q {
      TextFrom(s, p + 1, q);
      assert s[p..q] == [s[p]] + s[p + 1..q];
    }
  }

  lemma {:induction false} TextBehind(s: seq<char>, stop: nat, p: nat)
    requires stop < |s| && stop < p
    ensures Text(s[stop := '\0'], p) == Text(s, p)
    decreases |s| - p
  {
    if p < |s| {
      TextBehind(s, stop, p + 1);
    }
  }

  /** Skipping the delimiters at p. */
  method SkipDelims(s: array<char>, p: nat, delims: string) returns (q: nat)
    requires Terminated(s[..], p)
    ensures p <= q < s.Length && Terminated(s[..], q)
    ensures Text(s[..], q) == Skip(Text(s[..], p), delims)
    ensures s[q] != '\0' ==> s[q] !in delims
  {
    q := p;
    var j := 0;
    ghost var all := s[..];
    while j < |delims|
      invariant p <= q < |all| && Terminated(all, q) && 0 <= j <= |delims|
      invariant Skip(Text(all, q), delims) == Skip(Text(all, p), delims)
      invariant forall k | 0 <= k < j :: s[q] != delims[k]
      decreases |all| - q, |delims| - j
    {
      var was := q;
      while s[q] != '\0' && s[q] == delims[j]
        invariant was <= q < |all| && Terminated(all, q)
        invariant Skip(Text(all, q), delims) == Skip(Text(all, p), delims)
        decreases |all| - q
      {
        q := q + 1;
      }
      if s[q] == '\0' {
        return;
      }
      j := if was != q then 0 else j + 1;
    }
  }

  /** One call: NULL when no token is left; otherwise the first token of the text, ended by
      a NUL, and the cursor at the text of the remaining tokens.  Only the character that
      ended the token is overwritten. */
  method GetStrTok(s: array<char>, cur: nat, delims: string) returns (token: Option<nat>, cur': nat)
    requires Terminated(s[..], cur) && '\0' !in delims
    modifies s
    ensures cur <= cur' && Terminated(s[..], cur')
    ensures var was := Tokens(Text(old(s[..]), cur), delims);
      match token
      case None => was == [] && s[..] == old(s[..])
      case Some(k) =>
        && cur <= k <= cur' && was == [Text(s[..], k)] + Tokens(Text(s[..], cur'), delims)
        && k + |Text(s[..], k)| < s.Length && s[..] == old(s[..])[k + |Text(s[..], k)| := '\0']
  {
    hide Text, Tokens, Skip, Terminated;
    StillInside(s[..], cur);
    TextStart(s[..], cur);
    if s[cur] == '\0' || delims == "" {
      NoToken(Text(s[..], cur), delims);
      return None, cur;
    }
    cur' := SkipDelims(s, cur, delims);
    TextStart(s[..], cur');
    if s[cur'] == '\0' {
      NoToken(Text(s[..], cur), delims);
      return None, cur';
    }
    var k := cur';
    cur' := CutToken(s, k, delims, cur);
    token := Some(k);
  }

  /** The inner loop of the token loop: whether the character at p ends the token. */
  method AtStop(s: array<char>, p: nat, delims: string) returns (stop: bool)
    requires p < s.Length && delims != ""
    ensures stop <==> s[p] == '\0' || Stops(s[p], delims)
  {
    for j := 0 to |delims|
      invariant forall q | 0 <= q < j :: s[p] != delims[q]
      invariant j > 0 ==> s[p] != '\0' && !LineEnd(s[p])
    {
      if s[p] == delims[j] || s[p] == '\0' || s[p] == '\n' || s[p] == '\r' {
        return true;
      }
    }
    return false;
  }

  /** The token loop of GetStrTok: the first character at or behind k that ends the token. */
  method FindStop(s: array<char>, k: nat, delims: string) returns (stop: nat)
    requires k < s.Length && Terminated(s[..], k) && delims != ""
    ensures k <= stop < s.Length && Terminated(s[..], stop) && (s[stop] == '\0' || Stops(s[stop], delims))
    ensures forall q | k <= q < stop :: s[q] != '\0' && !Stops(s[q], delims)
  {
    ghost var all := s[..];
    hide Terminated, Stops;
    StillInside(all, k);
    var i := 0;
    stop := k;
    while true
      invariant stop == k + i && stop < |all| && Terminated(all, stop)
      invariant forall q | k <= q < stop :: all[q] != '\0' && !Stops(all[q], delims)
      decreases |all| - stop
    {
      var found := AtStop(s, stop, delims);
      if found {
        return;
      }
      StillInside(all, stop);
      i, stop := i + 1, stop + 1;
    }
  }

  /** The rest of GetStrTok, from the first character of the token on. */
  method CutToken(s: array<char>, k: nat, delims: string, ghost p: nat) returns (cur': nat)
    requires k < s.Length && Terminated(s[..], k) && s[k] != '\0' && delims != "" && '\0' !in delims
    requires Text(s[..], k) == Skip(Text(s[..], p), delims)
    modifies s
    ensures k <= cur' && Terminated(s[..], cur')
    ensures Tokens(Text(old(s[..]), p), delims) == [Text(s[..], k)] + Tokens(Text(s[..], cur'), delims)
    ensures k + |Text(s[..], k)| < s.Length && s[..] == old(s[..])[k + |Text(s[..], k)| := '\0']
  {
    ghost var all := s[..];
    hide Text, Tokens, Skip, Terminated, Stops;
    var stop := FindStop(s, k, delims);
    Cut(all, delims, p, k, stop);
    StaysTerminated(all, stop);
    cur' := if s[stop] != '\0' && s[stop] != '\n' && s[stop] != '\r' then stop + 1 else stop;
    s[stop] := '\0';
    assert s[..] == all[stop := '\0'];
  }

  lemma StillInside(s: seq<char>, p: nat)
    requires Terminated(s, p)
    ensures p < |s| && (s[p] != '\0' ==> p + 1 < |s| && Terminated(s, p + 1))
  {
  }

  lemma StaysTerminated(s: seq<char>, stop: nat)
    requires stop < |s| && Terminated(s, stop)
    ensures Terminated(s[stop := '\0'], stop)
    ensures s[stop] != '\0' ==> Terminated(s[stop := '\0'], stop + 1)
  {
    assert s[stop := '\0'][stop] == '\0';
    var k :| stop <= k < |s| && s[k] == '\0';
    assert s[stop := '\0'][k] == '\0';
  }

  /** What the cut does to the texts around it. */
  lemma {:induction false} TextCut(s: seq<char>, k: nat, stop: nat)
    requires k <= stop < |s| && forall i | k <= i < stop :: s[i] != '\0'
    ensures var s', u, n := s[stop := '\0'], Text(s, k), stop - k;
      && Text(s', k) == s[k..stop] && Text(s', stop) == ""
      && n <= |u| && u[..n] == s[k..stop]
      && if s[stop] == '\0' then n == |u| else n < |u| && u[n] == s[stop] && u[n + 1..] == Text(s', stop + 1)
  {
    var s', u, n := s[stop := '\0'], Text(s, k), stop - k;
    TextFrom(s, k, stop);
    TextFrom(s', k, stop);
    assert s'[k..stop] == s[k..stop];
    TextBehind(s, stop, stop + 1);
    assert u == s[k..stop] + Text(s, stop);
  }

  lemma TextStart(s: seq<char>, p: nat)
    requires p < |s|
    ensures Text(s, p) == "" <==> s[p] == '\0'
  {
  }

  lemma {:induction false} NoToken(t: string, delims: string)
    requires delims == "" || t == "" || Skip(t, delims) == ""
    ensures Tokens(t, delims) == []
  {
  }

  lemma {:induction false} FirstToken(t: string, delims: string, n: nat)
    requires var u := Skip(t, delims);
      && u != "" && delims != "" && n <= |u| && (n < |u| ==> Stops(u[n], delims))
      && forall i | 0 <= i < n :: !Stops(u[i], delims)
    ensures var u := Skip(t, delims);
      Tokens(t, delims) == [u[..n]] + if n < |u| && !LineEnd(u[n]) then Tokens(u[n + 1..], delims) else []
  {
    TokLenIs(Skip(t, delims), delims, n);
    hide TokLen, Skip;
  }

  /** Cutting at the stop splits the first token off the text. */
  lemma {:induction false} Cut(s: seq<char>, delims: string, p: nat, k: nat, stop: nat)
    requires k <= stop < |s| && delims != "" && '\0' !in delims
    requires Text(s, k) == Skip(Text(s, p), delims) && s[k] != '\0'
    requires forall i | k <= i < stop :: s[i] != '\0' && !Stops(s[i], delims)
    requires s[stop] == '\0' || Stops(s[stop], delims)
    ensures var s' := s[stop := '\0'];
      && Text(s', k) == s[k..stop]
      && Tokens(Text(s, p), delims) ==
           [s[k..stop]] +
           Tokens(Text(s', if s[stop] == '\0' || LineEnd(s[stop]) then stop else stop + 1), delims)
  {
    hide Text, Skip, Stops, Tokens;
    var u, n := Text(s, k), stop - k;
    TextStart(s, k);
    NoToken("", delims);
    TextCut(s, k, stop);
    assert forall i | 0 <= i < n :: u[..n][i] == s[k + i];
    FirstToken(Text(s, p), delims, n);
  }
}
