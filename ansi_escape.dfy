/**
 * ANSI SGR escape codes and the `colour` wrapper used by the status
 * reports. Whether colour is on is decided by the caller (a no-colour flag,
 * TTY and `NO_COLOR` detection); here only the text of the codes matters.
 */
module AnsiEscape {
  import opened Strings

  const ESC: char := '\U{1b}'

  // Colour attributes
  const BOLD: string := "\U{1b}[1m"
  const DIM: string := "\U{1b}[2m"
  const ITALIC: string := "\U{1b}[3m"
  const UNDERLINE: string := "\U{1b}[4m"

  // Foreground colours
  const BLACK: string := "\U{1b}[30m"
  const RED: string := "\U{1b}[31m"
  const GREEN: string := "\U{1b}[32m"
  const YELLOW: string := "\U{1b}[33m"
  const BLUE: string := "\U{1b}[34m"
  const PURPLE: string := "\U{1b}[35m"
  const CYAN: string := "\U{1b}[36m"
  const WHITE: string := "\U{1b}[37m"
  const INTENSE_BLACK: string := "\U{1b}[90m"
  const INTENSE_RED: string := "\U{1b}[91m"
  const INTENSE_GREEN: string := "\U{1b}[92m"
  const INTENSE_YELLOW: string := "\U{1b}[93m"
  const INTENSE_BLUE: string := "\U{1b}[94m"
  const INTENSE_PURPLE: string := "\U{1b}[95m"
  const INTENSE_CYAN: string := "\U{1b}[96m"
  const INTENSE_WHITE: string := "\U{1b}[97m"

  // Background colours
  const BG_BLACK: string := "\U{1b}[40m"
  const BG_RED: string := "\U{1b}[41m"
  const BG_GREEN: string := "\U{1b}[42m"
  const BG_YELLOW: string := "\U{1b}[43m"
  const BG_BLUE: string := "\U{1b}[44m"
  const BG_PURPLE: string := "\U{1b}[45m"
  const BG_CYAN: string := "\U{1b}[46m"
  const BG_WHITE: string := "\U{1b}[47m"
  const BG_INTENSE_BLACK: string := "\U{1b}[100m"
  const BG_INTENSE_RED: string := "\U{1b}[101m"
  const BG_INTENSE_GREEN: string := "\U{1b}[102m"
  const BG_INTENSE_YELLOW: string := "\U{1b}[103m"
  const BG_INTENSE_BLUE: string := "\U{1b}[104m"
  const BG_INTENSE_PURPLE: string := "\U{1b}[105m"
  const BG_INTENSE_CYAN: string := "\U{1b}[106m"
  const BG_INTENSE_WHITE: string := "\U{1b}[107m"

  const ANSI_RESET: string := "\U{1b}[0m"

  /** Every style code above, in declaration order. */
  const STYLES: seq<string> := [
    BOLD, DIM, ITALIC, UNDERLINE,
    BLACK, RED, GREEN, YELLOW,
    BLUE, PURPLE, CYAN, WHITE,
    INTENSE_BLACK, INTENSE_RED, INTENSE_GREEN, INTENSE_YELLOW,
    INTENSE_BLUE, INTENSE_PURPLE, INTENSE_CYAN, INTENSE_WHITE,
    BG_BLACK, BG_RED, BG_GREEN, BG_YELLOW,
    BG_BLUE, BG_PURPLE, BG_CYAN, BG_WHITE,
    BG_INTENSE_BLACK, BG_INTENSE_RED, BG_INTENSE_GREEN, BG_INTENSE_YELLOW,
    BG_INTENSE_BLUE, BG_INTENSE_PURPLE, BG_INTENSE_CYAN, BG_INTENSE_WHITE
  ]

  predicate IsDigit(c: char) {
    '0' <= c <= '9'
  }

  /** A Select Graphic Rendition sequence: ESC, `[`, decimal parameters, `m`. */
  predicate IsSgr(code: string) {
    |code| >= 4 && code[0] == ESC && code[1] == '[' && code[|code| - 1] == 'm'
    && forall i :: 2 <= i < |code| - 1 ==> IsDigit(code[i])
  }

  lemma AttributesAreSgr()
    ensures IsSgr(BOLD)
    ensures IsSgr(DIM)
    ensures IsSgr(ITALIC)
    ensures IsSgr(UNDERLINE)
  {
  }

  lemma ForegroundsAreSgr()
    ensures IsSgr(BLACK)
    ensures IsSgr(RED)
    ensures IsSgr(GREEN)
    ensures IsSgr(YELLOW)
    ensures IsSgr(BLUE)
    ensures IsSgr(PURPLE)
    ensures IsSgr(CYAN)
    ensures IsSgr(WHITE)
    ensures IsSgr(INTENSE_BLACK)
    ensures IsSgr(INTENSE_RED)
    ensures IsSgr(INTENSE_GREEN)
    ensures IsSgr(INTENSE_YELLOW)
    ensures IsSgr(INTENSE_BLUE)
    ensures IsSgr(INTENSE_PURPLE)
    ensures IsSgr(INTENSE_CYAN)
    ensures IsSgr(INTENSE_WHITE)
  {
  }

  lemma BackgroundsAreSgr()
    ensures IsSgr(BG_BLACK)
    ensures IsSgr(BG_RED)
    ensures IsSgr(BG_GREEN)
    ensures IsSgr(BG_YELLOW)
    ensures IsSgr(BG_BLUE)
    ensures IsSgr(BG_PURPLE)
    ensures IsSgr(BG_CYAN)
    ensures IsSgr(BG_WHITE)
    ensures IsSgr(BG_INTENSE_BLACK)
    ensures IsSgr(BG_INTENSE_RED)
    ensures IsSgr(BG_INTENSE_GREEN)
    ensures IsSgr(BG_INTENSE_YELLOW)
    ensures IsSgr(BG_INTENSE_BLUE)
    ensures IsSgr(BG_INTENSE_PURPLE)
    ensures IsSgr(BG_INTENSE_CYAN)
    ensures IsSgr(BG_INTENSE_WHITE)
  {
  }

  /** Every style code, and the reset, is an SGR sequence. */
  lemma StylesAreSgr()
    ensures forall i :: 0 <= i < |STYLES| ==> IsSgr(STYLES[i])
    ensures IsSgr(ANSI_RESET)
  {
    AttributesAreSgr();
    ForegroundsAreSgr();
    BackgroundsAreSgr();
  }

  /**
   * `colour(text, codes)`: the codes in order, the text, then a reset. The
   * reset is there even when no code is given.
   */
  function Colour(text: string, codes: seq<string>): (r: string)
    ensures StartsWith(r, Concat(codes)) && EndsWith(r, ANSI_RESET)
    ensures |r| == |Concat(codes)| + |text| + |ANSI_RESET|
    ensures r[|Concat(codes)|..|r| - |ANSI_RESET|] == text
  {
    Concat(codes) + text + ANSI_RESET
  }

  /** With no codes the text still gains a trailing reset: it is never returned bare. */
  lemma ColourWithoutCodes(text: string)
    ensures Colour(text, []) == text + ANSI_RESET
    ensures Colour(text, []) != text
  {
  }

  /** Under the same codes, different texts give different coloured strings. */
  lemma ColourInjective(a: string, b: string, codes: seq<string>)
    requires Colour(a, codes) == Colour(b, codes)
    ensures a == b
  {
    var r := Colour(a, codes);
    assert a == r[|Concat(codes)|..|r| - |ANSI_RESET|];
  }
}
