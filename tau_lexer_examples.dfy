/**
 * The scanner on concrete inputs: the quirks of the fixed-token table, string
 * literals, classification, and expressions from main_tau.c.
 */
module TauLexerExamples {

  import opened Wrappers
  import opened TauTypes
  import opened TauLexer

  /** An entry whose first character differs from s[i] is not a prefix there. */
  lemma FirstCharDiffers(s: string, i: nat, token: string)
    requires i < |s| && |token| > 0 && token[0] != s[i]
    ensures !StartsWithAt(s, i, token)
  {
    if i + |token| <= |s| {
      assert s[i..i + |token|][0] == s[i];
    }
  }

  /** No entry from `t` on starts with s[i]: no entry is found. */
  lemma {:induction false} NoEntryStartsWith(table: seq<FixedToken>, s: string, i: nat, t: nat)
    requires i < |s| && t <= |table|
    requires forall u | t <= u < |table| :: |table[u].text| > 0 && table[u].text[0] != s[i]
    decreases |table| - t
    ensures MatchFrom(table, s, i, t).None?
  {
    if t < |table| {
      FirstCharDiffers(s, i, table[t].text);
      NoEntryStartsWith(table, s, i, t + 1);
    }
  }

  /** A character that starts no table entry never begins a fixed token. */
  lemma NoFixedAt(s: string, i: nat)
    requires i < |s|
    requires s[i] !in {'#', 'n', ',', '(', ')', '\'', '`', '[', ']'}
    ensures MatchFixed(s, i).None?
  {
    NoEntryStartsWith(DISPATCH_TABLE, s, i, 0);
  }

  /** `table[t0]` is exactly s[i], and no entry from `t` to it starts with s[i]. */
  lemma {:induction false} SingleCharFrom(table: seq<FixedToken>, s: string, i: nat, t: nat, t0: nat)
    requires i < |s| && t <= t0 < |table| && table[t0].text == [s[i]]
    requires forall u | t <= u < t0 :: |table[u].text| > 0 && table[u].text[0] != s[i]
    decreases t0 - t
    ensures MatchFrom(table, s, i, t) == Some(t0)
  {
    if t < t0 {
      FirstCharDiffers(s, i, table[t].text);
      SingleCharFrom(table, s, i, t + 1, t0);
    } else {
      assert s[i..i + 1] == [s[i]];
    }
  }

  /** A one-character entry whose character starts no earlier entry is the one found. */
  lemma SingleCharEntry(s: string, i: nat, t0: nat)
    requires i < |s| && t0 < |DISPATCH_TABLE| && DISPATCH_TABLE[t0].text == [s[i]]
    requires forall u | 0 <= u < t0 :: |DISPATCH_TABLE[u].text| > 0 && DISPATCH_TABLE[u].text[0] != s[i]
    ensures MatchFixed(s, i) == Some(t0)
  {
    SingleCharFrom(DISPATCH_TABLE, s, i, 0, t0);
  }

  /** A parenthesis or bracket is always a one-character LPAREN or RPAREN marker. */
  lemma ParenAt(s: string, i: nat)
    requires i < |s| && s[i] in {'(', ')', '[', ']'}
    ensures NextMarker(s, i) == Some(Marker(i, i + 1, if s[i] == '(' || s[i] == '[' then LParen else RParen))
  {
    if s[i] == '(' {
      SingleCharEntry(s, i, 8);
    } else if s[i] == ')' {
      SingleCharEntry(s, i, 9);
    } else if s[i] == '[' {
      SingleCharEntry(s, i, 13);
    } else {
      SingleCharEntry(s, i, 14);
    }
  }

  /** One step of the scan at a non-space position. */
  lemma LexStep(s: string, i: nat, m: Marker)
    requires i < |s| && !IsSpace(s[i]) && NextMarker(s, i) == Some(m)
    ensures LexFrom(s, i) == Prepend([m], LexFrom(s, m.eidx))
  {
  }

  /** Whitespace before a position changes nothing in the scan from there. */
  lemma LexSkip(s: string, i: nat, j: nat)
    requires i <= j <= |s| && SkipSpace(s, i) == j
    ensures LexFrom(s, i) == LexFrom(s, j)
  {
  }

  /**
   * One step over a generic run [b, e) after the whitespace [i, b): the
   * caller states where the run ends and how it is classified.
   */
  lemma RunStep(s: string, i: nat, b: nat, e: nat, kind: MarkerType)
    requires i <= b < e <= |s| && SkipSpace(s, i) == b
    requires s[b] !in {'#', 'n', ',', '(', ')', '\'', '`', '[', ']', '"'}
    requires RunEnd(s, b) == e && Classify(s[b..e]) == kind
    ensures LexFrom(s, i) == Prepend([Marker(b, e, kind)], LexFrom(s, e))
  {
    NoFixedAt(s, b);
  }

  /** `nil` is matched as a raw prefix: "nilly" is NIL then the symbol "ly". */
  lemma NillyIsNilThenSymbol()
    ensures Lex("nilly") == LexResult(Success, [Marker(0, 3, Nil), Marker(3, 5, Symbol)])
  {
    var s := "nilly";
    assert s[0..3][0] != "#,@"[0];
    assert MatchFixed(s, 0) == Some(1);
    NoFixedAt(s, 3);
    assert RunEnd(s, 3) == 5;
    assert Classify(s[3..5]) == Symbol;
  }

  /** "#,@" is taken by its own, earlier table entry, not by "#," followed by "@". */
  lemma UnsyntaxSplicingBeatsUnsyntax()
    ensures Lex("#,@") == LexResult(Success, [Marker(0, 3, UnsyntaxSplicing)])
  {
  }

  /** '[' and ']' are dispatch-table aliases of the parentheses. */
  lemma BracketsAreParens()
    ensures Lex("[x]") == LexResult(Success, [Marker(0, 1, LParen), Marker(1, 2, Symbol), Marker(2, 3, RParen)])
  {
    BracketsOn("[x]");
  }

  lemma BracketsOn(s: string)
    requires s == "[x]"
    ensures Lex(s) == LexResult(Success, [Marker(0, 1, LParen), Marker(1, 2, Symbol), Marker(2, 3, RParen)])
  {
    assert LexFrom(s, 0) == Prepend([Marker(0, 1, LParen)], LexFrom(s, 1)) by {
      ParenAt(s, 0);
      LexStep(s, 0, Marker(0, 1, LParen));
    }
    BracketsFrom1(s);
  }

  lemma BracketsFrom1(s: string)
    requires s == "[x]"
    ensures LexFrom(s, 1) == LexResult(Success, [Marker(1, 2, Symbol), Marker(2, 3, RParen)])
  {
    assert LexFrom(s, 2) == LexResult(Success, [Marker(2, 3, RParen)]) by {
      ParenAt(s, 2);
      LexStep(s, 2, Marker(2, 3, RParen));
    }
    assert LexFrom(s, 1) == Prepend([Marker(1, 2, Symbol)], LexFrom(s, 2)) by {
      RunStep(s, 1, 1, 2, Symbol);
    }
  }

  /** A STRING marker includes both quotes; an escaped quote does not close it. */
  lemma EscapedQuoteStaysInside()
    ensures Lex("\"a\\\"b\"") == LexResult(Success, [Marker(0, 6, String)])
  {
    var s := "\"a\\\"b\"";
    NoFixedAt(s, 0);
    assert StringClose(s, 1) == Some(5);
  }

  /** The input ending inside a string literal is a ValueError. */
  lemma UnclosedStringIsValueError()
    ensures Lex("\"abc") == LexResult(ValueError, [])
  {
    NoFixedAt("\"abc", 0);
  }

  /** A trailing lone backslash inside a literal is a ValueError too. */
  lemma TrailingBackslashIsValueError()
    ensures Lex("(\"ab\\") == LexResult(ValueError, [Marker(0, 1, LParen)])
  {
    var s := "(\"ab\\";
    ParenAt(s, 0);
    NoFixedAt(s, 1);
    assert StringClose(s, 2) == None;
  }

  /** ' and , inside a run do not split it. */
  lemma QuoteAndCommaInsideRun()
    ensures Lex("a,b'c") == LexResult(Success, [Marker(0, 5, Symbol)])
  {
    var s := "a,b'c";
    NoFixedAt(s, 0);
    assert RunEnd(s, 0) == 5;
    assert Classify(s[0..5]) == Symbol;
  }

  /** The empty source and an all-whitespace source scan to no markers. */
  lemma BlankSources()
    ensures Lex("") == LexResult(Success, [])
    ensures Lex(" \t\n\r") == LexResult(Success, [])
  {
    assert SkipSpace(" \t\n\r", 0) == 4;
  }

  /** "(+ 1 2)", one of the expressions of main_tau.c. */
  lemma AddExpression()
    ensures Lex("(+ 1 2)") == LexResult(Success, [
      Marker(0, 1, LParen), Marker(1, 2, Symbol), Marker(3, 4, Int), Marker(5, 6, Int), Marker(6, 7, RParen)])
  {
    AddExpressionOn("(+ 1 2)");
  }

  lemma AddExpressionOn(s: string)
    requires s == "(+ 1 2)"
    ensures Lex(s) == LexResult(Success, [
      Marker(0, 1, LParen), Marker(1, 2, Symbol), Marker(3, 4, Int), Marker(5, 6, Int), Marker(6, 7, RParen)])
  {
    assert LexFrom(s, 0) == Prepend([Marker(0, 1, LParen)], LexFrom(s, 1)) by {
      ParenAt(s, 0);
      LexStep(s, 0, Marker(0, 1, LParen));
    }
    AddFrom1(s);
  }

  lemma AddFrom1(s: string)
    requires s == "(+ 1 2)"
    ensures LexFrom(s, 1) == LexResult(Success, [
      Marker(1, 2, Symbol), Marker(3, 4, Int), Marker(5, 6, Int), Marker(6, 7, RParen)])
  {
    AddFrom2(s);
    assert LexFrom(s, 1) == Prepend([Marker(1, 2, Symbol)], LexFrom(s, 2)) by {
      RunStep(s, 1, 1, 2, Symbol);
    }
  }

  lemma AddFrom2(s: string)
    requires s == "(+ 1 2)"
    ensures LexFrom(s, 2) == LexResult(Success, [Marker(3, 4, Int), Marker(5, 6, Int), Marker(6, 7, RParen)])
  {
    AddFrom4(s);
    assert LexFrom(s, 2) == Prepend([Marker(3, 4, Int)], LexFrom(s, 4)) by {
      RunStep(s, 2, 3, 4, Int);
    }
  }

  lemma AddFrom4(s: string)
    requires s == "(+ 1 2)"
    ensures LexFrom(s, 4) == LexResult(Success, [Marker(5, 6, Int), Marker(6, 7, RParen)])
  {
    assert LexFrom(s, 6) == LexResult(Success, [Marker(6, 7, RParen)]) by {
      ParenAt(s, 6);
      LexStep(s, 6, Marker(6, 7, RParen));
    }
    assert LexFrom(s, 4) == Prepend([Marker(5, 6, Int)], LexFrom(s, 6)) by {
      RunStep(s, 4, 5, 6, Int);
    }
  }

  /** Classification as coded: a lone sign is a SYMBOL, a signed digit run an INT. */
  lemma ClassifySigns()
    ensures Classify("+") == Symbol && Classify("-") == Symbol
    ensures Classify("-12") == Int && Classify("+7") == Int && Classify("007") == Int
  {
  }

  /** FLOAT as coded: the first non-digit after the sign is a dot, whatever follows. */
  lemma ClassifyFloats()
    ensures Classify("1.5") == Float && Classify(".") == Float && Classify("-.5") == Float
    ensures Classify("1.2.3") == Float && Classify("1.x") == Float
    ensures Classify("a.1") == Symbol && Classify("1a.") == Symbol
  {
  }
}
