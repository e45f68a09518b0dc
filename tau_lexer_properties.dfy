/**
 * What the scan guarantees: markers lie inside the source, in order and
 * without overlap; everything between them is whitespace; each marker is the
 * one the scanner finds at its start; and the classification and token
 * rules hold as coded, shown on concrete inputs.
 */
module TauLexerProperties {

  import opened Wrappers
  import opened TauTypes
  import opened TauLexer

  /** Every span lies in [lo, hi), is non-empty, and ends before any later one begins. */
  ghost predicate SpansOrdered(ms: seq<Marker>, lo: nat, hi: nat)
  {
    && (forall k | 0 <= k < |ms| :: lo <= ms[k].bidx < ms[k].eidx <= hi)
    && (forall k, l | 0 <= k < l < |ms| :: ms[k].eidx <= ms[l].bidx)
  }

  ghost predicate AllSpace(s: string, lo: nat, hi: nat)
    requires lo <= hi <= |s|
  {
    forall p | lo <= p < hi :: IsSpace(s[p])
  }

  /**
   * The gap before the first marker is whitespace and that marker starts on
   * a non-space, and so on from its end; on success the tail after the last
   * marker is whitespace too.
   */
  ghost predicate GapsAreSpace(s: string, ms: seq<Marker>, lo: nat, success: bool)
    requires lo <= |s| && SpansOrdered(ms, lo, |s|)
    decreases |ms|
  {
    if ms == [] then success ==> AllSpace(s, lo, |s|)
    else
      && AllSpace(s, lo, ms[0].bidx) && !IsSpace(s[ms[0].bidx])
      && GapsAreSpace(s, ms[1..], ms[0].eidx, success)
  }

  /**
   * The scan of s[i..] ends in Success or ValueError only, and its markers
   * lie in [i, |s|), each non-empty, in strictly increasing, non-overlapping order.
   */
  lemma {:induction false} LexFromWellFormed(s: string, i: nat)
    requires i <= |s|
    ensures LexFrom(s, i).status == Success || LexFrom(s, i).status == ValueError
    ensures SpansOrdered(LexFrom(s, i).markers, i, |s|)
    decreases |s| - i
  {
    var j := SkipSpace(s, i);
    if j < |s| && NextMarker(s, j).Some? {
      var m := NextMarker(s, j).value;
      LexFromWellFormed(s, m.eidx);
      var rest := LexFrom(s, m.eidx).markers;
      assert LexFrom(s, i).markers == [m] + rest;
    }
  }

  /** The whole-source form: every marker satisfies bidx < eidx <= |s|, in order. */
  lemma LexWellFormed(s: string)
    ensures Lex(s).status == Success || Lex(s).status == ValueError
    ensures SpansOrdered(Lex(s).markers, 0, |s|)
  {
    LexFromWellFormed(s, 0);
  }

  /**
   * Nothing but whitespace is dropped: the gaps between the markers of the
   * scan of s[i..] are whitespace, and so is the tail after the last marker
   * when the scan succeeds.
   */
  lemma {:induction false} LexFromGapsAreSpace(s: string, i: nat)
    requires i <= |s|
    ensures SpansOrdered(LexFrom(s, i).markers, i, |s|)
    ensures GapsAreSpace(s, LexFrom(s, i).markers, i, LexFrom(s, i).status == Success)
    decreases |s| - i
  {
    LexFromWellFormed(s, i);
    var j := SkipSpace(s, i);
    if j < |s| && NextMarker(s, j).Some? {
      var m := NextMarker(s, j).value;
      LexFromGapsAreSpace(s, m.eidx);
      var rest := LexFrom(s, m.eidx);
      assert LexFrom(s, i) == LexResult(rest.status, [m] + rest.markers);
      assert ([m] + rest.markers)[1..] == rest.markers;
    }
  }

  /**
   * Every marker of the scan of s[i..] is exactly the one NextMarker finds
   * at its start: so the shape lemmas below apply to each of them.
   */
  lemma {:induction false} LexFromMarkersAreNext(s: string, i: nat)
    requires i <= |s|
    ensures forall k | 0 <= k < |LexFrom(s, i).markers| ::
      var m := LexFrom(s, i).markers[k];
      m.bidx < |s| && !IsSpace(s[m.bidx]) && NextMarker(s, m.bidx) == Some(m)
    decreases |s| - i
  {
    var j := SkipSpace(s, i);
    if j < |s| && NextMarker(s, j).Some? {
      var m := NextMarker(s, j).value;
      LexFromMarkersAreNext(s, m.eidx);
      assert LexFrom(s, i).markers == [m] + LexFrom(s, m.eidx).markers;
    }
  }

  /** Where a scan from `i` that found `ms` stopped: the end of the last marker. */
  function StopFrom(ms: seq<Marker>, i: nat): nat
  {
    if ms == [] then i else ms[|ms| - 1].eidx
  }

  /**
   * Why a scan stopped at `stop`: past it there is only whitespace
   * (Success), or a string literal opens there that is never closed
   * (ValueError), and nothing else.
   */
  ghost predicate StoppedAt(s: string, r: LexResult, stop: nat)
    requires stop <= |s|
  {
    var j := SkipSpace(s, stop);
    && (r.status == Success <==> j == |s|)
    && (r.status == ValueError <==> j < |s| && s[j] == '"' && StringClose(s, j + 1).None?)
  }

  /** Why the scan of s[i..] ended, read at the end of its last marker. */
  lemma {:induction false} LexFromStops(s: string, i: nat)
    requires i <= |s|
    ensures StopFrom(LexFrom(s, i).markers, i) <= |s|
    ensures StoppedAt(s, LexFrom(s, i), StopFrom(LexFrom(s, i).markers, i))
    decreases |s| - i
  {
    var r := LexFrom(s, i);
    var j := SkipSpace(s, i);
    if j == |s| {
      assert r == LexResult(Success, []);
    } else {
      NextMarkerNone(s, j);
      if NextMarker(s, j).None? {
        assert r == LexResult(ValueError, []);
      } else {
        var m := NextMarker(s, j).value;
        LexFromStops(s, m.eidx);
        var rest := LexFrom(s, m.eidx);
        assert r == LexResult(rest.status, [m] + rest.markers);
        assert StopFrom([m] + rest.markers, i) == StopFrom(rest.markers, m.eidx);
      }
    }
  }

  /** The same for a whole source string. */
  lemma LexStops(s: string)
    ensures StopFrom(Lex(s).markers, 0) <= |s|
    ensures StoppedAt(s, Lex(s), StopFrom(Lex(s).markers, 0))
  {
    LexFromStops(s, 0);
  }

  /**
   * A fixed-kind marker comes from the first table entry that is a raw
   * prefix at its start (with no word-boundary check), and spans exactly
   * that entry's length.
   */
  lemma FixedMarkerShape(s: string, j: nat)
    requires j < |s| && !IsSpace(s[j]) && NextMarker(s, j).Some?
    requires NextMarker(s, j).value.kind !in {String, Symbol, Int, Float}
    ensures MatchFixed(s, j).Some?
    ensures var t := MatchFixed(s, j).value; var m := NextMarker(s, j).value;
      && StartsWithAt(s, j, DISPATCH_TABLE[t].text)
      && (forall u | 0 <= u < t :: !StartsWithAt(s, j, DISPATCH_TABLE[u].text))
      && m.eidx == j + |DISPATCH_TABLE[t].text| && m.kind == DISPATCH_TABLE[t].kind
  {
    MatchFixedFirst(s, j);
  }

  /** No entry's text is a proper prefix of the text of a later entry. */
  ghost predicate LongerFirst(table: seq<FixedToken>)
  {
    forall t, u | 0 <= t < u < |table| ::
      !(|table[t].text| < |table[u].text| && table[u].text[..|table[t].text|] == table[t].text)
  }

  /** The dispatch table is ordered so that first match means longest match. */
  lemma DispatchTableLongerFirst()
    ensures LongerFirst(DISPATCH_TABLE)
  {
    forall t, u | 0 <= t < u < |DISPATCH_TABLE|
      ensures !(|DISPATCH_TABLE[t].text| < |DISPATCH_TABLE[u].text|
                && DISPATCH_TABLE[u].text[..|DISPATCH_TABLE[t].text|] == DISPATCH_TABLE[t].text)
    {
    }
  }

  /**
   * In a longer-first table the first entry that matches is at least as long
   * as every entry that matches.
   */
  lemma FirstMatchIsLongestIn(table: seq<FixedToken>, s: string, i: nat)
    requires LongerFirst(table)
    ensures var r := MatchFrom(table, s, i, 0);
      r.Some? ==> forall u | 0 <= u < |table| && StartsWithAt(s, i, table[u].text) ::
        |table[u].text| <= |table[r.value].text|
  {
    MatchFromFirst(table, s, i, 0);
    var r := MatchFrom(table, s, i, 0);
    if r.Some? {
      var t := r.value;
      forall u | 0 <= u < |table| && StartsWithAt(s, i, table[u].text)
        ensures |table[u].text| <= |table[t].text|
      {
      }
    }
  }

  /**
   * The order-based dispatch of read_markers is longest-match dispatch: the
   * fixed token found at `i` is the longest table entry that is a prefix there.
   */
  lemma FixedMatchIsLongest(s: string, i: nat)
    ensures MatchFixed(s, i).Some? ==>
      forall u | 0 <= u < |DISPATCH_TABLE| && StartsWithAt(s, i, DISPATCH_TABLE[u].text) ::
        |DISPATCH_TABLE[u].text| <= |DISPATCH_TABLE[MatchFixed(s, i).value].text|
  {
    DispatchTableLongerFirst();
    FirstMatchIsLongestIn(DISPATCH_TABLE, s, i);
  }

  /** No table entry yields a STRING, SYMBOL, INT or FLOAT marker. */
  lemma TableKindsAreFixed(t: nat)
    requires t < |DISPATCH_TABLE|
    ensures DISPATCH_TABLE[t].kind !in {String, Symbol, Int, Float}
    ensures DISPATCH_TABLE[t].text[0] != '"'
  {
  }

  /** The number of backslashes immediately before position `k` of `b`. */
  ghost function BackslashRun(b: string, k: nat): nat
    requires k <= |b|
  {
    if k == 0 || b[k - 1] != '\\' then 0 else 1 + BackslashRun(b, k - 1)
  }

  /**
   * The contents of a string literal in the usual escape convention: a quote
   * inside is escaped by an odd run of backslashes before it, and the
   * contents do not end in half an escape (their trailing run is even).
   */
  ghost predicate LiteralBody(b: string)
  {
    && (forall k | 0 <= k < |b| && b[k] == '"' :: BackslashRun(b, k) % 2 == 1)
    && BackslashRun(b, |b|) % 2 == 0
  }

  /** BackslashRun of s[i..] at k, read without taking the slice. */
  ghost function RunFrom(s: string, i: nat, k: nat): nat
    requires i <= k <= |s|
    decreases k
  {
    if k == i || s[k - 1] != '\\' then 0 else 1 + RunFrom(s, i, k - 1)
  }

  lemma {:induction false} RunFromSlice(s: string, i: nat, q: nat, k: nat)
    requires i <= k <= q <= |s|
    ensures BackslashRun(s[i..q], k - i) == RunFrom(s, i, k)
    decreases k
  {
    if k > i {
      assert s[i..q][k - i - 1] == s[k - 1];
      RunFromSlice(s, i, q, k - 1);
    }
  }

  /**
   * From a position `p` that the literal scan started at `i` reaches (an
   * even run of backslashes before it), it closes at `q` exactly when `q`
   * is the first quote after `p` that is not escaped.
   */
  lemma {:induction false} StringCloseFrom(s: string, i: nat, p: nat, q: nat)
    requires i <= p <= |s| && RunFrom(s, i, p) % 2 == 0
    ensures StringClose(s, p) == Some(q) <==>
      && p <= q < |s| && s[q] == '"' && RunFrom(s, i, q) % 2 == 0
      && forall k | p <= k < q && s[k] == '"' :: RunFrom(s, i, k) % 2 == 1
    decreases |s| - p
  {
    if p == |s| || s[p] == '"' {
    } else if s[p] == '\\' {
      assert RunFrom(s, i, p + 1) % 2 == 1;
      if p + 1 < |s| {
        StringCloseFrom(s, i, p + 2, q);
      }
    } else {
      StringCloseFrom(s, i, p + 1, q);
    }
  }

  /**
   * The literal scan from `i` closes at `q` exactly when s[q] is a quote and
   * s[i..q] is a literal body; it finds no close exactly when no quote ends
   * a literal body.
   */
  lemma StringCloseIsLiteralBody(s: string, i: nat)
    requires i <= |s|
    ensures forall q :: StringClose(s, i) == Some(q) <==>
      i <= q < |s| && s[q] == '"' && LiteralBody(s[i..q])
    ensures StringClose(s, i).None? <==>
      forall q | i <= q < |s| && s[q] == '"' :: !LiteralBody(s[i..q])
  {
    forall q | i <= q < |s|
      ensures LiteralBody(s[i..q]) <==>
        && RunFrom(s, i, q) % 2 == 0
        && forall k | i <= k < q && s[k] == '"' :: RunFrom(s, i, k) % 2 == 1
    {
      RunFromSlice(s, i, q, q);
      forall k | i <= k < q {
        RunFromSlice(s, i, q, k);
      }
      assert forall k | 0 <= k < q - i :: s[i..q][k] == s[i + k];
    }
    forall q {
      StringCloseFrom(s, i, i, q);
    }
  }

  /** The one-way form for a close that was found. */
  lemma ClosedIsLiteralBody(s: string, i: nat, q: nat)
    requires i <= |s| && StringClose(s, i) == Some(q)
    ensures q < |s| && LiteralBody(s[i..q])
  {
    StringCloseIsLiteralBody(s, i);
  }

  /**
   * At a non-space position the scan finds no marker exactly when a string
   * literal opens there and is never closed.
   */
  lemma NextMarkerNone(s: string, j: nat)
    requires j < |s| && !IsSpace(s[j])
    ensures NextMarker(s, j).None? <==> s[j] == '"' && StringClose(s, j + 1).None?
  {
    MatchFixedFirst(s, j);
    if MatchFixed(s, j).Some? {
      TableKindsAreFixed(MatchFixed(s, j).value);
    }
  }

  /**
   * A STRING marker spans an opening and a closing quote, both included,
   * and what lies between them is a literal body: every quote in it follows
   * an odd run of backslashes, and it does not end inside an escape.
   */
  lemma StringMarkerShape(s: string, j: nat)
    requires j < |s| && !IsSpace(s[j]) && NextMarker(s, j).Some?
    requires NextMarker(s, j).value.kind == String
    ensures var m := NextMarker(s, j).value;
      && m.eidx >= j + 2 && s[j] == '"' && s[m.eidx - 1] == '"'
      && StringClose(s, j + 1) == Some(m.eidx - 1)
      && LiteralBody(s[j + 1..m.eidx - 1])
  {
    if MatchFixed(s, j).Some? {
      TableKindsAreFixed(MatchFixed(s, j).value);
    }
    ClosedIsLiteralBody(s, j + 1, NextMarker(s, j).value.eidx - 1);
  }

  /**
   * A SYMBOL, INT or FLOAT marker is a maximal run at its start: none of its
   * characters is whitespace, a quote, a parenthesis or a bracket (so ' and ,
   * inside it do not split it), and it is classified by Classify.
   */
  lemma RunMarkerShape(s: string, j: nat)
    requires j < |s| && !IsSpace(s[j]) && NextMarker(s, j).Some?
    requires NextMarker(s, j).value.kind in {Symbol, Int, Float}
    ensures var m := NextMarker(s, j).value;
      && MatchFixed(s, j).None? && s[j] != '"'
      && m.eidx == RunEnd(s, j)
      && (forall k | j <= k < m.eidx :: !EndsRun(s[k]))
      && (m.eidx < |s| ==> EndsRun(s[m.eidx]))
      && m.kind == Classify(s[j..m.eidx])
  {
    if MatchFixed(s, j).Some? {
      TableKindsAreFixed(MatchFixed(s, j).value);
    }
  }

  /** INT exactly when the run is an optional sign followed by one or more digits. */
  lemma ClassifyInt(run: string)
    ensures Classify(run) == Int <==>
      SignLength(run) < |run| && forall k | SignLength(run) <= k < |run| :: IsDigit(run[k])
  {
  }

  /**
   * FLOAT, as coded, exactly when after the optional sign some dot is
   * preceded only by digits; what follows the dot does not matter.
   */
  lemma ClassifyFloat(run: string)
    ensures Classify(run) == Float <==>
      exists d | SignLength(run) <= d < |run| ::
        run[d] == '.' && forall k | SignLength(run) <= k < d :: IsDigit(run[k])
  {
    var j := SignLength(run);
    if j < |run| {
      var f := FirstNonDigit(run, j);
      if Classify(run) == Float {
        assert run[f] == '.';
      }
      if exists d | j <= d < |run| :: run[d] == '.' && forall k | j <= k < d :: IsDigit(run[k]) {
        var d :| j <= d < |run| && run[d] == '.' && forall k | j <= k < d :: IsDigit(run[k]);
        assert f <= d;
      }
    }
  }

  /** A generic run is always one of SYMBOL, INT and FLOAT. */
  lemma ClassifyRange(run: string)
    ensures Classify(run) in {Symbol, Int, Float}
  {
  }
}
