/** The three field validators of the API (`api/validators.py`): each is one
    regular-expression test on a string. The regular expressions are
    modelled by their meaning: a character class, a greedy run of it, and
    the anchor at the end of the pattern. */
module Validators {

  /** The letters `[a-zA-Zа-яА-Я]` that `validate_name_recipe` looks for.
      `ё` (U+0451) and `Ё` (U+0401) lie outside both Cyrillic ranges. */
  predicate IsRecipeNameLetter(c: char) {
    || ('a' <= c <= 'z')
    || ('A' <= c <= 'Z')
    || ('\U{0430}' <= c <= '\U{044F}')
    || ('\U{0410}' <= c <= '\U{042F}')
  }

  /** `re.findall(r'[a-zA-Zа-яА-Я]', value)` is non-empty. */
  function ContainsNameLetter(s: string): (r: bool)
    ensures r <==> exists i :: 0 <= i < |s| && IsRecipeNameLetter(s[i])
  {
    if s == [] then false
    else IsRecipeNameLetter(s[0]) || ContainsNameLetter(s[1..])
  }

  /** `validate_name_recipe` accepts a name. */
  predicate ValidRecipeName(name: string) {
    ContainsNameLetter(name)
  }

  /** Python's `\w` for the characters this model distinguishes: ASCII
      letters, digits and `_`, and the letters of the Cyrillic block. */
  predicate IsWordChar(c: char) {
    || ('a' <= c <= 'z')
    || ('A' <= c <= 'Z')
    || ('0' <= c <= '9')
    || c == '_'
    || ('\U{0400}' <= c <= '\U{045F}')
  }

  /** The class `[\w.@+-]` of `validate_username`. */
  predicate IsUsernameChar(c: char) {
    IsWordChar(c) || c == '.' || c == '@' || c == '+' || c == '-'
  }

  /** The class `[-a-zA-Z0-9_]` of `validate_tag_slug`. */
  predicate IsSlugChar(c: char) {
    c == '-' || ('a' <= c <= 'z') || ('A' <= c <= 'Z') || ('0' <= c <= '9') || c == '_'
  }

  /** The length of the longest prefix of `s` whose elements all satisfy
      `p`: for a character class, how far a greedy `[...]+` run reaches
      from the start. */
  function Span<T>(s: seq<T>, p: T -> bool): (n: nat)
    ensures n <= |s|
    ensures forall i | 0 <= i < n :: p(s[i])
    ensures n < |s| ==> !p(s[n])
  {
    if s == [] || !p(s[0]) then 0 else 1 + Span(s[1..], p)
  }

  /** `re.match(r'^[\w.@+-]+\Z', value)`: a non-empty run of username
      characters that reaches the very end of the string (`\Z` does not
      accept a trailing newline). */
  function ValidUsername(s: string): (r: bool)
    ensures r <==> |s| > 0 && forall i | 0 <= i < |s| :: IsUsernameChar(s[i])
  {
    var n := Span(s, IsUsernameChar);
    n > 0 && n == |s|
  }

  /** `re.match(r'^[-a-zA-Z0-9_]+$', value)`: a non-empty run of slug
      characters followed by the end of the string or by one final
      newline (`$` also matches just before a newline that ends the
      string). */
  function ValidSlug(s: string): (r: bool)
    ensures r <==>
      || (|s| > 0 && forall i | 0 <= i < |s| :: IsSlugChar(s[i]))
      || (|s| > 1 && s[|s| - 1] == '\n' && forall i | 0 <= i < |s| - 1 :: IsSlugChar(s[i]))
  {
    var n := Span(s, IsSlugChar);
    n > 0 && (n == |s| || (n == |s| - 1 && s[n] == '\n'))
  }

  /** A name made only of characters outside the two alphabets (digits,
      punctuation, spaces, `ё`, `Ё`) is rejected. */
  lemma {:induction false} NameWithoutLettersRejected(name: string)
    requires forall i | 0 <= i < |name| :: !IsRecipeNameLetter(name[i])
    ensures !ValidRecipeName(name)
  {
  }

  /** `ё` and `Ё` alone do not make a valid recipe name. */
  lemma YoIsNotALetter()
    ensures !ValidRecipeName("\U{0451}\U{0401}")
    ensures !ValidRecipeName("12:30 !")
    ensures ValidRecipeName("\U{0411}\U{043E}\U{0440}\U{0449} 2")
  {
    NameWithoutLettersRejected("\U{0451}\U{0401}");
    NameWithoutLettersRejected("12:30 !");
    assert IsRecipeNameLetter("\U{0411}\U{043E}\U{0440}\U{0449} 2"[0]);
  }

  /** The empty string is neither a username nor a slug. */
  lemma EmptyRejected()
    ensures !ValidUsername("") && !ValidSlug("")
  {
  }

  /** A username followed by a newline is rejected (`\Z`), while a slug
      followed by a newline is accepted (`$`). */
  lemma {:induction false} TrailingNewline(t: string)
    requires |t| > 0 && forall i | 0 <= i < |t| :: IsSlugChar(t[i])
    ensures ValidSlug(t + "\n")
    ensures !ValidUsername(t + "\n")
  {
    var s := t + "\n";
    assert s[|s| - 1] == '\n' && !IsUsernameChar(s[|s| - 1]);
    assert forall i | 0 <= i < |s| - 1 :: s[i] == t[i];
  }

  /** Two newlines, or a newline in the middle, are rejected even by `$`. */
  lemma SlugNewlineOnlyAtEnd()
    ensures ValidSlug("abc\n")
    ensures !ValidSlug("abc\n\n")
    ensures !ValidSlug("ab\nc")
    ensures !ValidSlug("\n")
  {
    TrailingNewline("abc");
    assert "abc\n\n"[3] == '\n' && !IsSlugChar("abc\n\n"[3]);
    assert "ab\nc"[2] == '\n' && !IsSlugChar("ab\nc"[2]);
  }
}
