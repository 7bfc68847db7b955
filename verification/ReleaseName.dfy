/** The pattern a release name must match. */
module ReleaseName {

  datatype Pattern =
    | OneOf(allowed: char -> bool)
    | Then(first: Pattern, second: Pattern)
    | Optional(body: Pattern)
    | Star(body: Pattern)
    | Plus(body: Pattern)

  /** The language of a pattern: `s` matches from its first to its last character. */
  predicate Matches(p: Pattern, s: string)
    decreases p, |s|
  {
    match p
    case OneOf(allowed) => |s| == 1 && allowed(s[0])
    case Then(first, second) => exists k :: 0 <= k <= |s| && Matches(first, s[..k]) && Matches(second, s[k..])
    case Optional(body) => s == "" || Matches(body, s)
    case Star(body) => s == "" || exists k :: 0 < k <= |s| && Matches(body, s[..k]) && Matches(p, s[k..])
    case Plus(body) => Matches(body, s) || exists k :: 0 < k < |s| && Matches(body, s[..k]) && Matches(p, s[k..])
  }

  predicate IsAlphanumeric(c: char) {
    'A' <= c <= 'Z' || 'a' <= c <= 'z' || '0' <= c <= '9'
  }

  predicate IsNameChar(c: char) {
    IsAlphanumeric(c) || c in "-_."
  }

  const ALPHANUMERIC := OneOf(c => IsAlphanumeric(c))
  const NAME_CHARS := Star(OneOf(c => IsNameChar(c)))
  const GROUP := Then(Optional(Then(ALPHANUMERIC, NAME_CHARS)), ALPHANUMERIC)

  /** ^(([A-Za-z0-9][-A-Za-z0-9_.]*)?[A-Za-z0-9])+$ */
  const VALID_NAME := Plus(GROUP)

  predicate MatchString(name: string) {
    Matches(VALID_NAME, name)
  }

  predicate AllNameChars(s: string) {
    forall k :: 0 <= k < |s| ==> IsNameChar(s[k])
  }

  /** What the pattern means, without its nested repetition. */
  predicate IsFlatName(s: string) {
    s != "" && AllNameChars(s) && IsAlphanumeric(s[0]) && IsAlphanumeric(s[|s| - 1])
  }

  lemma {:induction false} NameCharsMatch(s: string)
    ensures Matches(NAME_CHARS, s) <==> AllNameChars(s)
    decreases |s|
  {
    if s != "" {
      var one := OneOf(c => IsNameChar(c));
      NameCharsMatch(s[1..]);
      assert s == s[..1] + s[1..];
      if AllNameChars(s) {
        assert AllNameChars(s[1..]);
        assert Matches(one, s[..1]);
      }
      if Matches(NAME_CHARS, s) {
        var k :| 0 < k <= |s| && Matches(one, s[..k]) && Matches(NAME_CHARS, s[k..]);
        assert k == 1 && s[..1][0] == s[0];
      }
    }
  }

  lemma PrefixMatches(s: string)
    ensures Matches(Then(ALPHANUMERIC, NAME_CHARS), s) <==> s != "" && IsAlphanumeric(s[0]) && AllNameChars(s)
  {
    if s != "" {
      NameCharsMatch(s[1..]);
      assert AllNameChars(s) <==> IsNameChar(s[0]) && AllNameChars(s[1..]) by {
        assert s == [s[0]] + s[1..];
      }
      if IsAlphanumeric(s[0]) && AllNameChars(s) {
        assert Matches(ALPHANUMERIC, s[..1]) && Matches(NAME_CHARS, s[1..]);
      }
    }
    if Matches(Then(ALPHANUMERIC, NAME_CHARS), s) {
      var k :| 0 <= k <= |s| && Matches(ALPHANUMERIC, s[..k]) && Matches(NAME_CHARS, s[k..]);
      assert k == 1 && s[..1][0] == s[0];
    }
  }

  /** One round of the outer group already accepts every flat name, and only flat names. */
  lemma GroupMatches(s: string)
    ensures Matches(GROUP, s) <==> IsFlatName(s)
  {
    var opt := Optional(Then(ALPHANUMERIC, NAME_CHARS));
    if s != "" {
      var n := |s| - 1;
      PrefixMatches(s[..n]);
      assert s == s[..n] + [s[n]];
      assert s[n..] == [s[n]];
      if IsFlatName(s) {
        assert Matches(opt, s[..n]) && Matches(ALPHANUMERIC, s[n..]);
      }
    }
    if Matches(GROUP, s) {
      var k :| 0 <= k <= |s| && Matches(opt, s[..k]) && Matches(ALPHANUMERIC, s[k..]);
      assert k == |s| - 1 && s[k..][0] == s[k];
      assert s[..k] == "" || IsAlphanumeric(s[..k][0]);
    }
  }

  lemma FlatNamesConcatenate(a: string, b: string)
    requires IsFlatName(a) && IsFlatName(b)
    ensures IsFlatName(a + b)
  {
  }

  /** The nested repetition is redundant: the pattern accepts exactly the flat names. */
  lemma {:induction false} ValidNameIsFlat(s: string)
    ensures MatchString(s) <==> IsFlatName(s)
    decreases |s|
  {
    GroupMatches(s);
    if k :| 0 < k < |s| && Matches(GROUP, s[..k]) && Matches(VALID_NAME, s[k..]) {
      GroupMatches(s[..k]);
      ValidNameIsFlat(s[k..]);
      FlatNamesConcatenate(s[..k], s[k..]);
      assert s == s[..k] + s[k..];
    }
  }
}
