/**
 * The meaning of read_markers (tau.c), as functions over the source string:
 * one marker after another, left to right, each found by skipping
 * whitespace and then trying, in order, the fixed-token table, a string
 * literal and a generic run of characters.
 */
module TauLexer {

  import opened Wrappers
  import opened TauTypes

  /** A C string: its terminating NUL sits just past the last index. */
  type CString = s: string | forall k | 0 <= k < |s| :: s[k] != '\0'

  /** isspace in the C locale: space, \t, \n, \v, \f and \r. */
  predicate IsSpace(c: char)
  {
    c == ' ' || '\t' <= c <= '\r'
  }

  /** isdigit in the C locale. */
  predicate IsDigit(c: char)
  {
    '0' <= c <= '9'
  }

  /** The characters that end a generic run. */
  predicate EndsRun(c: char)
  {
    IsSpace(c) || c == '"' || c == '(' || c == ')' || c == '[' || c == ']'
  }

  datatype FixedToken = FixedToken(text: string, kind: MarkerType)

  /**
   * The fixed tokens in the order they are tried. The hard-coded length of
   * each entry in tau.c equals the length of its text.
   */
  const DISPATCH_TABLE: seq<FixedToken> := [
    FixedToken("#,@", UnsyntaxSplicing),
    FixedToken("nil", Nil),
    FixedToken(",@", UnquoteSplicing),
    FixedToken("#'", Syntax),
    FixedToken("#`", QuasiSyntax),
    FixedToken("#,", Unsyntax),
    FixedToken("#t", True),
    FixedToken("#f", False),
    FixedToken("(", LParen),
    FixedToken(")", RParen),
    FixedToken("'", Quote),
    FixedToken("`", QuasiQuote),
    FixedToken(",", Unquote),
    FixedToken("[", LParen),
    FixedToken("]", RParen)
  ]

  /**
   * strncmp(s + i, token, |token|) == 0: the token is a raw prefix of the
   * rest of the string (the terminating NUL mismatches when too few remain).
   */
  predicate StartsWithAt(s: string, i: nat, token: string)
  {
    i + |token| <= |s| && s[i..i + |token|] == token
  }

  /** The first entry of `table` at or after `t` that is a prefix of s[i..]. */
  function MatchFrom(table: seq<FixedToken>, s: string, i: nat, t: nat): (r: Option<nat>)
    requires t <= |table|
    decreases |table| - t
    ensures r.Some? ==> t <= r.value < |table|
  {
    if t == |table| then None
    else if StartsWithAt(s, i, table[t].text) then Some(t)
    else MatchFrom(table, s, i, t + 1)
  }

  /**
   * The entry found is a prefix at `i` and no entry before it is; when none
   * is found, no entry from `t` on is a prefix.
   */
  lemma {:induction false} MatchFromFirst(table: seq<FixedToken>, s: string, i: nat, t: nat)
    requires t <= |table|
    decreases |table| - t
    ensures var r := MatchFrom(table, s, i, t);
      && (r.Some? ==> StartsWithAt(s, i, table[r.value].text))
      && (r.Some? ==> forall u | t <= u < r.value :: !StartsWithAt(s, i, table[u].text))
      && (r.None? ==> forall u | t <= u < |table| :: !StartsWithAt(s, i, table[u].text))
  {
    if t < |table| && !StartsWithAt(s, i, table[t].text) {
      MatchFromFirst(table, s, i, t + 1);
    }
  }

  /** The index of the first dispatch-table entry matching at `i`, if any. */
  function MatchFixed(s: string, i: nat): Option<nat>
  {
    MatchFrom(DISPATCH_TABLE, s, i, 0)
  }

  /** The first-match facts for the dispatch table itself. */
  lemma MatchFixedFirst(s: string, i: nat)
    ensures var r := MatchFixed(s, i);
      && (r.Some? ==> r.value < |DISPATCH_TABLE| && StartsWithAt(s, i, DISPATCH_TABLE[r.value].text))
      && (r.Some? ==> forall u | 0 <= u < r.value :: !StartsWithAt(s, i, DISPATCH_TABLE[u].text))
      && (r.None? ==> forall u | 0 <= u < |DISPATCH_TABLE| :: !StartsWithAt(s, i, DISPATCH_TABLE[u].text))
  {
    MatchFromFirst(DISPATCH_TABLE, s, i, 0);
  }

  /** The first position at or after `i` that is not whitespace (|s| if none). */
  function SkipSpace(s: string, i: nat): (j: nat)
    requires i <= |s|
    decreases |s| - i
    ensures i <= j <= |s|
    ensures forall k | i <= k < j :: IsSpace(s[k])
    ensures j < |s| ==> !IsSpace(s[j])
  {
    if i == |s| || !IsSpace(s[i]) then i else SkipSpace(s, i + 1)
  }

  /**
   * The index of the quote closing a string literal whose contents start
   * at `i`: a backslash makes the next character part of the literal, so an
   * escaped quote does not close it. None when the input ends first.
   */
  function StringClose(s: string, i: nat): (q: Option<nat>)
    requires i <= |s|
    decreases |s| - i
    ensures q.Some? ==> i <= q.value < |s| && s[q.value] == '"'
  {
    if i == |s| then None
    else if s[i] == '"' then Some(i)
    else if s[i] == '\\' then (if i + 1 < |s| then StringClose(s, i + 2) else None)
    else StringClose(s, i + 1)
  }

  /** The end of the maximal run of characters from `i` that none of EndsRun stops. */
  function RunEnd(s: string, i: nat): (e: nat)
    requires i <= |s|
    decreases |s| - i
    ensures i <= e <= |s|
    ensures forall k | i <= k < e :: !EndsRun(s[k])
    ensures e < |s| ==> EndsRun(s[e])
  {
    if i == |s| || EndsRun(s[i]) then i else RunEnd(s, i + 1)
  }

  /** 1 when the run starts with a sign character, else 0. */
  function SignLength(run: string): nat
  {
    if |run| > 0 && (run[0] == '+' || run[0] == '-') then 1 else 0
  }

  /** The first index at or after `lo` holding a non-digit (|run| if none). */
  function FirstNonDigit(run: string, lo: nat): (k: nat)
    requires lo <= |run|
    decreases |run| - lo
    ensures lo <= k <= |run|
    ensures forall m | lo <= m < k :: IsDigit(run[m])
    ensures k < |run| ==> !IsDigit(run[k])
  {
    if lo == |run| || !IsDigit(run[lo]) then lo else FirstNonDigit(run, lo + 1)
  }

  /**
   * The classification of a generic run: after an optional sign, nothing
   * left is a SYMBOL; only digits is an INT; otherwise FLOAT exactly when the
   * first non-digit is a dot, whatever follows it.
   */
  function Classify(run: string): MarkerType
  {
    var j := SignLength(run);
    if j == |run| then Symbol
    else
      var k := FirstNonDigit(run, j);
      if k == |run| then Int
      else if run[k] == '.' then Float
      else Symbol
  }

  /** No table entry matches at `j` only if s[j] is none of ( ) [ ]. */
  lemma NoFixedMatchIsNoBracket(s: string, j: nat)
    requires j < |s| && MatchFixed(s, j).None?
    ensures s[j] != '(' && s[j] != ')' && s[j] != '[' && s[j] != ']'
  {
    MatchFixedFirst(s, j);
    assert !StartsWithAt(s, j, DISPATCH_TABLE[8].text);
    assert !StartsWithAt(s, j, DISPATCH_TABLE[9].text);
    assert !StartsWithAt(s, j, DISPATCH_TABLE[13].text);
    assert !StartsWithAt(s, j, DISPATCH_TABLE[14].text);
    assert s[j..j + 1] == [s[j]];
  }

  /** Every table entry has a non-empty text, so a fixed match always advances. */
  lemma FixedTextsNonEmpty(t: nat)
    requires t < |DISPATCH_TABLE|
    ensures |DISPATCH_TABLE[t].text| >= 1
  {
  }

  /**
   * The marker that starts at the non-space position `j`; None when it is
   * a string literal that the input ends inside.
   */
  function NextMarker(s: string, j: nat): (m: Option<Marker>)
    requires j < |s| && !IsSpace(s[j])
    ensures m.Some? ==> m.value.bidx == j < m.value.eidx <= |s|
  {
    match MatchFixed(s, j)
    case Some(t) =>
      FixedTextsNonEmpty(t);
      Some(Marker(j, j + |DISPATCH_TABLE[t].text|, DISPATCH_TABLE[t].kind))
    case None =>
      if s[j] == '"' then
        match StringClose(s, j + 1)
        case Some(q) => Some(Marker(j, q + 1, String))
        case None => None
      else
        NoFixedMatchIsNoBracket(s, j);
        var e := RunEnd(s, j);
        Some(Marker(j, e, Classify(s[j..e])))
  }

  /** What a scan produces: its status and the markers it appended, in order. */
  datatype LexResult = LexResult(status: ReturnStatus, markers: seq<Marker>)

  /** The scan of s[i..]: Success at the end of input, ValueError at an unclosed string. */
  function LexFrom(s: string, i: nat): LexResult
    requires i <= |s|
    decreases |s| - i
  {
    var j := SkipSpace(s, i);
    if j == |s| then LexResult(Success, [])
    else
      match NextMarker(s, j)
      case None => LexResult(ValueError, [])
      case Some(m) =>
        var rest := LexFrom(s, m.eidx);
        LexResult(rest.status, [m] + rest.markers)
  }

  /** The scan of a whole source string, when no allocation fails. */
  function Lex(s: string): LexResult
  {
    LexFrom(s, 0)
  }

  /** `done` followed by what `r` found, under r's status. */
  function Prepend(done: seq<Marker>, r: LexResult): LexResult
  {
    LexResult(r.status, done + r.markers)
  }
}
