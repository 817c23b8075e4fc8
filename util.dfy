// The helpers of org/util.go that work on the token list and on slices.
module Util {
  import opened Strs
  import opened Lexer

  /** isSecondBlankLine: tokens i-1 and i are both blank text lines; never for i <= 1. */
  function IsSecondBlankLine(tokens: seq<Token>, i: int): (r: bool)
    requires i < |tokens|
    ensures r <==> i >= 2 && tokens[i - 1].kind == text && tokens[i].kind == text
                   && AllSpace(tokens[i - 1].content) && AllSpace(tokens[i].content)
  {
    TrimSpaceAllSpace(if i >= 1 then tokens[i - 1].content else "");
    TrimSpaceAllSpace(if i >= 0 then tokens[i].content else "");
    if i - 1 <= 0 then false
    else
      var t1, t2 := tokens[i - 1], tokens[i];
      t1.kind == text && t2.kind == text && |TrimSpace(t1.content)| == 0 && |TrimSpace(t2.content)| == 0
  }

  /** Prepend: the new elements come first, the old slice follows unchanged. */
  function Prepend<T>(slice: seq<T>, elems: seq<T>): (r: seq<T>)
    ensures |r| == |elems| + |slice|
    ensures r[..|elems|] == elems && r[|elems|..] == slice
  {
    elems + slice
  }
}
