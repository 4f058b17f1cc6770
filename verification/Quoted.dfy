/** quote and unquote of Quoted.cpp, on the *nix branch. */
module Quoted {

  predicate AlreadyQuoted(s: string) {
    |s| > 1 && (s[0] == '"' || s[0] == '\'') && s[|s| - 1] == s[0]
  }

  /** The mark quote puts around a string that is not already quoted. */
  function MarkFor(s: string): char {
    if '\'' in s && '"' !in s then '"' else '\''
  }

  function Quote(unquoted: string): string {
    if unquoted == "" then "''"
    else if AlreadyQuoted(unquoted) then unquoted
    else [MarkFor(unquoted)] + unquoted + [MarkFor(unquoted)]
  }

  function Unquote(quoted: string): string {
    if AlreadyQuoted(quoted) then quoted[1..|quoted| - 1] else quoted
  }

  /** unquote undoes quote exactly on the strings quote does not take for quoted ones. */
  lemma UnquoteQuote(s: string)
    ensures Unquote(Quote(s)) == s <==> !AlreadyQuoted(s)
  {
    if s != "" && !AlreadyQuoted(s) {
      assert Quote(s)[1..|Quote(s)| - 1] == s;
    }
  }
}
