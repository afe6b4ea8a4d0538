/** How a DRF `CharField` cleans the text it receives before any validator
    sees it: with `trim_whitespace`, on by default, the value is
    `str.strip()`-ed. Every character field of the serializers in
    `api/serializers.py` gets that default (`SignUpSerializer` for users,
    `RecipeSerializer` for recipe names and texts). */
module Fields {
  import opened Validators

  /** Python's `str.isspace`: the characters `str.strip()` removes. */
  predicate IsSpace(c: char) {
    || c == ' ' || ('\t' <= c <= '\r') || ('\U{001C}' <= c <= '\U{001F}')
    || c == '\U{0085}' || c == '\U{00A0}' || c == '\U{1680}'
    || ('\U{2000}' <= c <= '\U{200A}') || c == '\U{2028}' || c == '\U{2029}'
    || c == '\U{202F}' || c == '\U{205F}' || c == '\U{3000}'
  }

  /** How many whitespace characters end `s`. */
  function TrailingSpaces(s: string): (n: nat)
    ensures n <= |s|
    ensures forall i | |s| - n <= i < |s| :: IsSpace(s[i])
    ensures n < |s| ==> !IsSpace(s[|s| - n - 1])
  {
    if s == [] || !IsSpace(s[|s| - 1]) then 0 else 1 + TrailingSpaces(s[..|s| - 1])
  }

  /** `s.strip()`: `s` without its leading and trailing whitespace. */
  function Trim(s: string): string {
    var a := Span(s, IsSpace);
    var t := s[a..];
    t[..|t| - TrailingSpaces(t)]
  }

  /** What is stripped is whitespace and what is left is a middle piece
      of `s`, starting where the leading whitespace ends. */
  lemma TrimSplit(s: string)
    ensures var r, a := Trim(s), Span(s, IsSpace);
      && a + |r| <= |s|
      && s[a..a + |r|] == r
      && (forall i | 0 <= i < a :: IsSpace(s[i]))
      && (forall i | a + |r| <= i < |s| :: IsSpace(s[i]))
  {
    var r, a := Trim(s), Span(s, IsSpace);
    var t := s[a..];
    forall i | a + |r| <= i < |s| ensures IsSpace(s[i]) {
      assert s[i] == t[i - a];
    }
  }

  /** The stripped string is empty exactly when `s` is all whitespace,
      and otherwise starts and ends with a character that is not. */
  lemma TrimMeaning(s: string)
    ensures var r := Trim(s);
      && (r == [] <==> forall i | 0 <= i < |s| :: IsSpace(s[i]))
      && (r != [] ==> !IsSpace(r[0]) && !IsSpace(r[|r| - 1]))
  {
    var r, a := Trim(s), Span(s, IsSpace);
    TrimSplit(s);
    var t := s[a..];
    if a < |s| {
      assert t[0] == s[a];
    }
    if r != [] {
      assert r[0] == t[0];
    }
  }

  /** A string without surrounding whitespace is left as it is. */
  lemma TrimClean(s: string)
    requires s == [] || (!IsSpace(s[0]) && !IsSpace(s[|s| - 1]))
    ensures Trim(s) == s
  {
  }

  /** Stripping twice is stripping once. */
  lemma TrimIdempotent(s: string)
    ensures Trim(Trim(s)) == Trim(s)
  {
    TrimMeaning(s);
    TrimClean(Trim(s));
  }

  /** Whitespace around a clean string is removed, and nothing else is:
      `" bob "` is received as `"bob"`. */
  lemma {:induction false} TrimPadding(p: string, s: string, q: string)
    requires forall i | 0 <= i < |p| :: IsSpace(p[i])
    requires forall i | 0 <= i < |q| :: IsSpace(q[i])
    requires s != [] && !IsSpace(s[0]) && !IsSpace(s[|s| - 1])
    ensures Trim(p + s + q) == s
  {
    var w := p + s + q;
    var a := Span(w, IsSpace);
    assert w[|p|] == s[0];
    assert a == |p|;
    var t := w[a..];
    assert t == s + q;
    var n := TrailingSpaces(t);
    assert t[|s| - 1] == s[|s| - 1];
    assert n == |q|;
    assert t[..|t| - n] == s;
  }

  lemma PaddedUsername()
    ensures Trim(" bob\n") == "bob"
  {
    TrimPadding(" ", "bob", "\n");
    assert " " + "bob" + "\n" == " bob\n";
  }
}
