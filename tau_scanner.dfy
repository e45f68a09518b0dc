/**
 * read_markers (tau.c) as the imperative loop it is: a cursor `i` over the
 * source, with nested loops to skip whitespace, try the dispatch table, walk
 * a string literal, take a generic run and classify it, pushing each marker
 * into the output buffer. Each inner loop is a method proved to compute the
 * matching function of TauLexer, and ReadMarkers is proved to append exactly
 * the markers of Lex.
 */
module TauScanner {

  import opened Wrappers
  import opened TauTypes
  import opened TauLexer
  import opened TauBuffer

  /** The whitespace-skipping loop. */
  method SkipWhitespace(s: CString, i: nat) returns (j: nat)
    requires i <= |s|
    ensures j == SkipSpace(s, i)
  {
    j := i;
    while j < |s| && IsSpace(s[j])
      invariant i <= j <= |s|
      invariant SkipSpace(s, j) == SkipSpace(s, i)
    {
      j := j + 1;
    }
  }

  /** The loop over the dispatch table: the first entry that is a prefix at `i`. */
  method MatchDispatch(s: CString, i: nat) returns (found: Option<nat>)
    ensures found == MatchFixed(s, i)
  {
    for t := 0 to |DISPATCH_TABLE|
      invariant MatchFrom(DISPATCH_TABLE, s, i, t) == MatchFixed(s, i)
    {
      var token := DISPATCH_TABLE[t].text;
      if i + |token| <= |s| && s[i..i + |token|] == token {
        return Some(t);
      }
    }
    return None;
  }

  /**
   * The string-literal loop, from the opening quote at `open`: the index of
   * the closing quote, or None when the input ends inside the literal.
   */
  method ScanString(s: CString, open: nat) returns (close: Option<nat>)
    requires open < |s| && s[open] == '"'
    ensures close == StringClose(s, open + 1)
  {
    var i := open + 1;
    while i < |s| && s[i] != '"'
      invariant open + 1 <= i <= |s|
      invariant StringClose(s, i) == StringClose(s, open + 1)
    {
      if s[i] == '\\' {
        i := i + 1;
        if i < |s| {
          i := i + 1;
        } else {
          break;
        }
      } else {
        i := i + 1;
      }
    }
    if i < |s| && s[i] == '"' {
      return Some(i);
    }
    return None;
  }

  /** The generic-run loop: the end of the run that starts at `start`. */
  method ScanGeneric(s: CString, start: nat) returns (end: nat)
    requires start <= |s|
    ensures end == RunEnd(s, start)
  {
    end := start;
    while end < |s| && !EndsRun(s[end])
      invariant start <= end <= |s|
      invariant RunEnd(s, end) == RunEnd(s, start)
    {
      end := end + 1;
    }
  }

  /** The classification loop with its isInt and isFloat flags. */
  method ClassifyToken(run: string) returns (kind: MarkerType)
    ensures kind == Classify(run)
  {
    var isInt := true;
    var isFloat := false;
    var j := 0;
    if j < |run| && (run[j] == '+' || run[j] == '-') {
      j := j + 1;
    }
    if j == |run| {
      return Symbol;
    }
    ghost var lo := j;
    while j < |run|
      invariant lo <= j <= |run|
      invariant isInt
      invariant !isFloat ==> FirstNonDigit(run, j) == FirstNonDigit(run, lo)
      invariant isFloat ==> FirstNonDigit(run, lo) < j && run[FirstNonDigit(run, lo)] == '.'
    {
      if run[j] == '.' {
        if isFloat {
          isInt := false;
          break;
        }
        isFloat := true;
      } else if !IsDigit(run[j]) {
        isInt := false;
        break;
      }
      j := j + 1;
    }
    if isInt && !isFloat {
      kind := Int;
    } else if isFloat {
      kind := Float;
    } else {
      kind := Symbol;
    }
  }

  /**
   * What read_markers leaves behind when the input and the buffer are
   * present: on Success or ValueError exactly the markers of the scan after
   * the old contents; on RuntimeError (a push could not grow the buffer) the
   * old contents followed by a proper prefix of those markers.
   */
  ghost predicate Appended(status: ReturnStatus, before: seq<Marker>, after: seq<Marker>, spec: LexResult)
  {
    || (status == spec.status && after == before + spec.markers)
    || (status == RuntimeError && exists n | 0 <= n < |spec.markers| :: after == before + spec.markers[..n])
  }

  /** The buffer's own frame when there is a buffer, nothing otherwise. */
  function Frame(output: Buffer?<Marker>): set<object>
    reads output
  {
    if output == null then {} else {output as object, output.data}
  }

  /**
   * One pass of the outer loop after whitespace: the dispatch table, then a
   * string literal, then a generic run. None for an unclosed string literal.
   */
  method ScanMarker(s: CString, i: nat) returns (marker: Option<Marker>)
    requires i < |s| && !IsSpace(s[i])
    ensures marker == NextMarker(s, i)
  {
    var fixed := MatchDispatch(s, i);
    if fixed.Some? {
      var token := DISPATCH_TABLE[fixed.value];
      return Some(Marker(i, i + |token.text|, token.kind));
    }
    if s[i] == '"' {
      var close := ScanString(s, i);
      if close.None? {
        return None;
      }
      return Some(Marker(i, close.value + 1, String));
    }
    var end := ScanGeneric(s, i);
    var kind := ClassifyToken(s[i..end]);
    return Some(Marker(i, end, kind));
  }

  /** How the scan of s[i..] continues once whitespace up to `j` is skipped. */
  lemma LexFromUnfold(s: string, i: nat, j: nat)
    requires i <= |s| && j == SkipSpace(s, i)
    ensures j == |s| ==> LexFrom(s, i) == LexResult(Success, [])
    ensures j < |s| && NextMarker(s, j).None? ==> LexFrom(s, i) == LexResult(ValueError, [])
    ensures j < |s| && NextMarker(s, j).Some? ==>
      LexFrom(s, i) == Prepend([NextMarker(s, j).value], LexFrom(s, NextMarker(s, j).value.eidx))
  {
  }

  lemma PrependTwice(a: seq<Marker>, b: seq<Marker>, r: LexResult)
    ensures Prepend(a, Prepend(b, r)) == Prepend(a + b, r)
  {
    assert a + (b + r.markers) == (a + b) + r.markers;
  }

  method ReadMarkers(input: Option<CString>, output: Buffer?<Marker>) returns (status: ReturnStatus)
    requires output != null ==> output.Valid()
    modifies Frame(output)
    ensures input.None? || output == null ==> status == ValueError
    ensures output != null ==> output.Valid()
    ensures output != null && input.None? ==> unchanged(output) && output.Contents() == old(output.Contents())
    ensures output != null && input.Some? ==> Appended(status, old(output.Contents()), output.Contents(), Lex(input.value))
  {
    if input.None? || output == null {
      return ValueError;
    }
    var s := input.value;
    ghost var done: seq<Marker> := [];
    var i := 0;
    while i < |s|
      invariant i <= |s|
      invariant output.Valid()
      invariant output.data == old(output.data) || fresh(output.data)
      invariant output.Contents() == old(output.Contents()) + done
      invariant Prepend(done, LexFrom(s, i)) == Lex(s)
      decreases |s| - i
    {
      ghost var from := i;
      i := SkipWhitespace(s, i);
      LexFromUnfold(s, from, i);
      if i == |s| {
        break;
      }
      var marker := ScanMarker(s, i);
      if marker.None? {
        return ValueError;
      }
      ghost var before := output.Contents();
      var reallocOk: bool := *;
      var pushed := output.Push(marker.value, reallocOk);
      if pushed == 0 {
        assert Lex(s).markers[..|done|] == done;
        return RuntimeError;
      }
      assert output.Contents() == before + [marker.value];
      assert before + [marker.value] == old(output.Contents()) + (done + [marker.value]);
      PrependTwice(done, [marker.value], LexFrom(s, marker.value.eidx));
      done := done + [marker.value];
      i := marker.value.eidx;
    }
    return Success;
  }
}
