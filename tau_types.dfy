/**
 * The record and enumeration types shared by the scanner and its callers
 * (tau.h), and the mapping from a marker type's numeric code to its name
 * (marker_type_to_string in tau.c).
 */
module TauTypes {

  import opened Wrappers

  /** The kinds of marker, in the declaration order of the C enumeration. */
  datatype MarkerType =
    | LParen | RParen | Symbol | String | Int | Float
    | Quote            // '
    | QuasiQuote       // `
    | Unquote          // ,
    | UnquoteSplicing  // ,@
    | Syntax           // #'
    | QuasiSyntax      // #`
    | Unsyntax         // #,
    | UnsyntaxSplicing // #,@
    | True             // #t
    | False            // #f
    | Nil              // nil

  /** A marker is the half-open span [bidx, eidx) of the source plus its kind. */
  datatype Marker = Marker(bidx: nat, eidx: nat, kind: MarkerType)

  datatype ReturnStatus =
    | Success
    | RetryableError
    | ValueError
    | RuntimeError
    | PermanentError

  /** The integer value the C compiler gives each enumerator. */
  function Code(t: MarkerType): nat
  {
    match t
    case LParen => 0
    case RParen => 1
    case Symbol => 2
    case String => 3
    case Int => 4
    case Float => 5
    case Quote => 6
    case QuasiQuote => 7
    case Unquote => 8
    case UnquoteSplicing => 9
    case Syntax => 10
    case QuasiSyntax => 11
    case Unsyntax => 12
    case UnsyntaxSplicing => 13
    case True => 14
    case False => 15
    case Nil => 16
  }

  /** The enumerator with the given value, if there is one. */
  function OfCode(code: int): (t: Option<MarkerType>)
    ensures t.Some? <==> 0 <= code < 17
  {
    if code == 0 then Some(LParen)
    else if code == 1 then Some(RParen)
    else if code == 2 then Some(Symbol)
    else if code == 3 then Some(String)
    else if code == 4 then Some(Int)
    else if code == 5 then Some(Float)
    else if code == 6 then Some(Quote)
    else if code == 7 then Some(QuasiQuote)
    else if code == 8 then Some(Unquote)
    else if code == 9 then Some(UnquoteSplicing)
    else if code == 10 then Some(Syntax)
    else if code == 11 then Some(QuasiSyntax)
    else if code == 12 then Some(Unsyntax)
    else if code == 13 then Some(UnsyntaxSplicing)
    else if code == 14 then Some(True)
    else if code == 15 then Some(False)
    else if code == 16 then Some(Nil)
    else None
  }

  /** The stringified enumerator name of each marker type. */
  function Name(t: MarkerType): (name: string)
    ensures |name| > 7 && name[..7] == "MARKER_"
  {
    match t
    case LParen => "MARKER_LPAREN"
    case RParen => "MARKER_RPAREN"
    case Symbol => "MARKER_SYMBOL"
    case String => "MARKER_STRING"
    case Int => "MARKER_INT"
    case Float => "MARKER_FLOAT"
    case Quote => "MARKER_QUOTE"
    case QuasiQuote => "MARKER_QUASI_QUOTE"
    case Unquote => "MARKER_UNQUOTE"
    case UnquoteSplicing => "MARKER_UNQUOTE_SPLICING"
    case Syntax => "MARKER_SYNTAX"
    case QuasiSyntax => "MARKER_QUASI_SYNTAX"
    case Unsyntax => "MARKER_UNSYNTAX"
    case UnsyntaxSplicing => "MARKER_UNSYNTAX_SPLICING"
    case True => "MARKER_TRUE"
    case False => "MARKER_FALSE"
    case Nil => "MARKER_NIL"
  }

  /**
   * marker_type_to_string: a C enumeration value may hold any integer; a value
   * outside the enumeration is named "MARKER_UNKNOWN".
   */
  function MarkerTypeToString(code: int): (name: string)
    ensures name == "MARKER_UNKNOWN" <==> !(0 <= code < 17)
    ensures 0 <= code < 17 ==> name == Name(OfCode(code).value)
  {
    match OfCode(code)
    case Some(t) => Name(t)
    case None => "MARKER_UNKNOWN"
  }

  /** Code and OfCode are inverse to each other on the 17 enumerators. */
  lemma CodeRoundTrip(t: MarkerType, code: int)
    ensures OfCode(Code(t)) == Some(t)
    ensures OfCode(code) == Some(t) ==> Code(t) == code
  {
  }

  /** No two marker types share a name, so the printed name identifies the kind. */
  lemma NamesDistinct(a: MarkerType, b: MarkerType)
    ensures Name(a) == Name(b) ==> a == b
  {
    if Name(a) == Name(b) {
      assert |Name(a)| == |Name(b)|;
      assert Name(a)[7..] == Name(b)[7..];
    }
  }

  /** Every enumerator, given through its code, gets its own name, never the fallback. */
  lemma EveryKindNamed(t: MarkerType)
    ensures MarkerTypeToString(Code(t)) == Name(t) != "MARKER_UNKNOWN"
  {
    CodeRoundTrip(t, Code(t));
  }
}
