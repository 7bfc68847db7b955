/**
  The few functions of Go's strings, strconv and path packages that the release code relies on,
  with the laws that make the key codec and the manifest splitter correct.
*/
module GoStrings {

  // ---------- searching and splitting ----------

  predicate OccursAt(s: string, sep: string, i: int) {
    0 <= i && i + |sep| <= |s| && s[i..i + |sep|] == sep
  }

  ghost predicate Contains(s: string, sep: string) {
    exists i :: OccursAt(s, sep, i)
  }

  /** The leftmost occurrence at or after `from`, or -1. */
  function IndexFrom(s: string, sep: string, from: nat): (i: int)
    requires from <= |s|
    ensures i == -1 ==> forall j :: from <= j ==> !OccursAt(s, sep, j)
    ensures i != -1 ==> from <= i && OccursAt(s, sep, i) && forall j :: from <= j < i ==> !OccursAt(s, sep, j)
    decreases |s| - from
  {
    if OccursAt(s, sep, from) then from
    else if from == |s| then -1
    else IndexFrom(s, sep, from + 1)
  }

  function Index(s: string, sep: string): (i: int)
    ensures i == -1 <==> !Contains(s, sep)
    ensures i != -1 ==> OccursAt(s, sep, i) && forall j :: 0 <= j < i ==> !OccursAt(s, sep, j)
  {
    IndexFrom(s, sep, 0)
  }

  /** strings.Split for a non-empty separator: cut at the leftmost occurrence, then go on behind it. */
  function Split(s: string, sep: string): (pieces: seq<string>)
    requires sep != ""
    ensures pieces != []
    decreases |s|
  {
    var i := Index(s, sep);
    if i == -1 then [s] else [s[..i]] + Split(s[i + |sep|..], sep)
  }

  function Join(pieces: seq<string>, sep: string): string {
    if pieces == [] then ""
    else if |pieces| == 1 then pieces[0]
    else pieces[0] + sep + Join(pieces[1..], sep)
  }

  /** Splitting loses nothing, and no piece still holds the separator. */
  lemma {:induction false} SplitLossless(s: string, sep: string)
    requires sep != ""
    ensures Join(Split(s, sep), sep) == s
    ensures forall k :: 0 <= k < |Split(s, sep)| ==> !Contains(Split(s, sep)[k], sep)
    decreases |s|
  {
    var i := Index(s, sep);
    if i != -1 {
      var rest := s[i + |sep|..];
      SplitLossless(rest, sep);
      assert Split(s, sep)[1..] == Split(rest, sep);
      assert s == s[..i] + s[i..i + |sep|] + rest;
      if j :| OccursAt(s[..i], sep, j) {
        assert s[..i][j..j + |sep|] == s[j..j + |sep|];
        assert OccursAt(s, sep, j);
      }
    }
  }

  /** `piece` followed by the separator is cut exactly behind `piece`. */
  predicate CutsBehind(piece: string, sep: string) {
    forall j :: 0 <= j < |piece| ==> !OccursAt(piece + sep, sep, j)
  }

  ghost predicate Separable(pieces: seq<string>, sep: string) {
    && (forall k :: 0 <= k < |pieces| - 1 ==> CutsBehind(pieces[k], sep))
    && (pieces != [] ==> !Contains(pieces[|pieces| - 1], sep))
  }

  lemma FirstCut(piece: string, sep: string, rest: string)
    requires sep != ""
    ensures Contains(piece + sep + rest, sep)
    ensures CutsBehind(piece, sep) <==> Index(piece + sep + rest, sep) == |piece|
  {
    var s := piece + sep + rest;
    assert s[|piece|..|piece| + |sep|] == sep;
    assert OccursAt(s, sep, |piece|);
    forall j | 0 <= j < |piece|
      ensures OccursAt(s, sep, j) <==> OccursAt(piece + sep, sep, j)
    {
      assert s[j..j + |sep|] == (piece + sep)[j..j + |sep|];
    }
  }

  lemma SplitStep(s: string, sep: string)
    requires sep != ""
    ensures var i := Index(s, sep);
            Split(s, sep) == if i == -1 then [s] else [s[..i]] + Split(s[i + |sep|..], sep)
  {
  }

  /** Split undoes Join exactly for separable pieces: nothing weaker is enough. */
  lemma {:induction false} SplitUndoesJoin(pieces: seq<string>, sep: string)
    requires sep != "" && pieces != []
    ensures Split(Join(pieces, sep), sep) == pieces <==> Separable(pieces, sep)
    decreases |pieces|
  {
    if |pieces| == 1 {
      SplitStep(pieces[0], sep);
    } else {
      var head, tail := pieces[0], pieces[1..];
      SplitUndoesJoin(tail, sep);
      SeparableTail(pieces, sep);
      SplitBehindHead(head, Join(tail, sep), sep);
      assert pieces == [head] + tail;
    }
  }

  lemma SplitBehindHead(head: string, rest: string, sep: string)
    requires sep != ""
    ensures CutsBehind(head, sep) ==> Split(head + sep + rest, sep) == [head] + Split(rest, sep)
    ensures !CutsBehind(head, sep) ==> Split(head + sep + rest, sep)[0] != head
  {
    var s := head + sep + rest;
    FirstCut(head, sep, rest);
    SplitStep(s, sep);
    var i := Index(s, sep);
    if i == |head| {
      assert s[..i] == head && s[i + |sep|..] == rest;
    } else {
      assert Split(s, sep)[0] == s[..i];
    }
  }

  lemma SeparableTail(pieces: seq<string>, sep: string)
    requires |pieces| >= 2
    ensures Separable(pieces, sep) <==> CutsBehind(pieces[0], sep) && Separable(pieces[1..], sep)
  {
    var tail := pieces[1..];
    assert forall k :: 0 <= k < |tail| ==> tail[k] == pieces[k + 1];
    if CutsBehind(pieces[0], sep) && Separable(tail, sep) {
      forall k | 0 <= k < |pieces| - 1
        ensures CutsBehind(pieces[k], sep)
      {
        if k > 0 { assert pieces[k] == tail[k - 1]; }
      }
    }
  }

  lemma CharOccurs(s: string, c: char, j: nat)
    ensures OccursAt(s, [c], j) <==> j < |s| && s[j] == c
  {
    if j < |s| { assert s[j..j + 1] == [s[j]]; }
  }

  lemma ContainsChar(s: string, c: char)
    ensures Contains(s, [c]) <==> c in s
  {
    forall j: nat { CharOccurs(s, c, j); }
    if c in s {
      var j :| 0 <= j < |s| && s[j] == c;
      assert OccursAt(s, [c], j);
    }
  }

  /** A one-character separator cannot straddle a boundary. */
  lemma CutsBehindChar(piece: string, c: char)
    requires c !in piece
    ensures CutsBehind(piece, [c])
  {
    forall j: nat { CharOccurs(piece + [c], c, j); }
  }

  lemma {:induction false} JoinSnoc(pieces: seq<string>, last: string, sep: string)
    requires pieces != []
    ensures Join(pieces + [last], sep) == Join(pieces, sep) + sep + last
    decreases |pieces|
  {
    var all := pieces + [last];
    if |pieces| == 1 {
      assert all[1..] == [last];
    } else {
      assert all[1..] == pieces[1..] + [last];
      JoinSnoc(pieces[1..], last, sep);
    }
  }

  /** Splitting at a character sees a suffix free of that character as one last piece. */
  lemma SplitSnoc(s: string, last: string, c: char)
    requires c !in last
    ensures Split(s + [c] + last, [c]) == Split(s, [c]) + [last]
  {
    var pieces := Split(s, [c]);
    SplitLossless(s, [c]);
    JoinSnoc(pieces, last, [c]);
    var all := pieces + [last];
    forall k | 0 <= k < |all|
      ensures CutsBehind(all[k], [c]) && !Contains(all[k], [c])
    {
      ContainsChar(all[k], c);
      CutsBehindChar(all[k], c);
    }
    SplitUndoesJoin(all, [c]);
  }

  // ---------- trimming, case, paths ----------

  predicate IsSpace(c: char) {
    c in "\t\n\r " || c == '\U{b}' || c == '\U{c}' || c == '\U{85}' || c == '\U{a0}'
  }

  function TrimLeft(s: string): string {
    if s != "" && IsSpace(s[0]) then TrimLeft(s[1..]) else s
  }

  function TrimRight(s: string): string {
    if s != "" && IsSpace(s[|s| - 1]) then TrimRight(s[..|s| - 1]) else s
  }

  function TrimSpace(s: string): string {
    TrimRight(TrimLeft(s))
  }

  function ToLower(s: string): (r: string)
    ensures |r| == |s|
  {
    if s == "" then ""
    else [if 'A' <= s[0] <= 'Z' then s[0] - 'A' + 'a' else s[0]] + ToLower(s[1..])
  }

  predicate HasPrefix(s: string, prefix: string) {
    prefix <= s
  }

  predicate HasSuffix(s: string, suffix: string) {
    |suffix| <= |s| && s[|s| - |suffix|..] == suffix
  }

  function TrimPrefix(s: string, prefix: string): string {
    if HasPrefix(s, prefix) then s[|prefix|..] else s
  }

  function TrimSlashes(s: string): string {
    if s != "" && s[|s| - 1] == '/' then TrimSlashes(s[..|s| - 1]) else s
  }

  /** path.Base: the last element of a slash-separated path. */
  function PathBase(s: string): string {
    if s == "" then "."
    else
      var t := TrimSlashes(s);
      if t == "" then "/"
      else
        var pieces := Split(t, "/");
        pieces[|pieces| - 1]
  }

  /** A path of one element is its own base. */
  lemma BaseOfOneElement(s: string)
    requires s != "" && '/' !in s
    ensures PathBase(s) == s
  {
    assert s[|s| - 1] != '/';
    ContainsChar(s, '/');
    SplitStep(s, "/");
  }

  lemma {:induction false} TrimLeftBlank(s: string, k: nat)
    requires k < |s| && !IsSpace(s[k])
    ensures TrimLeft(s) != ""
  {
    if IsSpace(s[0]) {
      assert s[1..][k - 1] == s[k];
      TrimLeftBlank(s[1..], k - 1);
    }
  }

  lemma {:induction false} TrimLeftHead(s: string)
    ensures TrimLeft(s) != "" ==> !IsSpace(TrimLeft(s)[0])
  {
    if s != "" && IsSpace(s[0]) { TrimLeftHead(s[1..]); }
  }

  lemma {:induction false} TrimRightKeepsHead(s: string)
    requires s != "" && !IsSpace(s[0])
    ensures TrimRight(s) != ""
  {
    if IsSpace(s[|s| - 1]) {
      assert |s| > 1;
      TrimRightKeepsHead(s[..|s| - 1]);
    }
  }

  /** A string holding one visible character is not blank. */
  lemma VisibleNotBlank(s: string, k: nat)
    requires k < |s| && !IsSpace(s[k])
    ensures TrimSpace(s) != ""
  {
    TrimLeftBlank(s, k);
    TrimLeftHead(s);
    TrimRightKeepsHead(TrimLeft(s));
  }

  /** The characters Go's TrimSpace cuts off, by their codes. */
  predicate IsBlank(c: char) {
    c as int in {0x09, 0x0a, 0x0b, 0x0c, 0x0d, 0x20, 0x85, 0xa0}
  }

  lemma BlankIsSpace(c: char)
    ensures IsBlank(c) <==> IsSpace(c)
  {
    assert "\t\n\r "[0] == '\t' && "\t\n\r "[1] == '\n' && "\t\n\r "[2] == '\r' && "\t\n\r "[3] == ' ';
  }

  predicate AllBlank(s: string) {
    forall k :: 0 <= k < |s| ==> IsBlank(s[k])
  }

  lemma {:induction false} TrimLeftAt(s: string, i: nat)
    requires i <= |s| && AllBlank(s[..i]) && (i < |s| ==> !IsBlank(s[i]))
    ensures TrimLeft(s) == s[i..]
    decreases i
  {
    if i < |s| { BlankIsSpace(s[i]); }
    if i > 0 {
      assert IsBlank(s[..i][0]);
      BlankIsSpace(s[0]);
      assert s[1..][..i - 1] == s[..i][1..];
      TrimLeftAt(s[1..], i - 1);
    }
  }

  lemma {:induction false} TrimRightAt(s: string, j: nat)
    requires j <= |s| && AllBlank(s[j..]) && (j > 0 ==> !IsBlank(s[j - 1]))
    ensures TrimRight(s) == s[..j]
    decreases |s| - j
  {
    if j > 0 { BlankIsSpace(s[j - 1]); }
    if j < |s| {
      assert IsBlank(s[j..][|s| - 1 - j]);
      BlankIsSpace(s[|s| - 1]);
      assert s[..|s| - 1][j..] == s[j..][..|s| - 1 - j];
      TrimRightAt(s[..|s| - 1], j);
      assert s[..|s| - 1][..j] == s[..j];
    }
  }

  /** Trimming takes away the blanks in front and behind, up to a visible character on either side. */
  lemma TrimSpaceAt(s: string, i: nat, j: nat)
    requires i <= j <= |s| && AllBlank(s[..i]) && AllBlank(s[j..])
    requires i < j ==> !IsBlank(s[i]) && !IsBlank(s[j - 1])
    ensures TrimSpace(s) == s[i..j]
  {
    if i == j {
      assert forall k :: 0 <= k < |s| ==> IsBlank(s[k]) by {
        assert forall k :: 0 <= k < i ==> s[..i][k] == s[k];
        assert forall k :: i <= k < |s| ==> s[i..][k - i] == s[k];
      }
      assert s[..|s|] == s;
      TrimLeftAt(s, |s|);
    } else {
      TrimLeftAt(s, i);
      assert s[i..][j - i..] == s[j..];
      TrimRightAt(s[i..], j - i);
    }
  }

  /** Every string has such a middle. */
  lemma Middle(s: string) returns (i: nat, j: nat)
    ensures i <= j <= |s| && AllBlank(s[..i]) && AllBlank(s[j..])
    ensures i < j ==> !IsBlank(s[i]) && !IsBlank(s[j - 1])
    ensures TrimSpace(s) == s[i..j]
  {
    i := 0;
    while i < |s| && IsBlank(s[i])
      invariant i <= |s| && AllBlank(s[..i])
    {
      i := i + 1;
    }
    j := |s|;
    while j > i && IsBlank(s[j - 1])
      invariant i <= j <= |s| && AllBlank(s[j..])
    {
      j := j - 1;
    }
    TrimSpaceAt(s, i, j);
  }

  /** Only the capitals of the alphabet change, each to its small letter. */
  lemma {:induction false} LowerAt(s: string, k: nat)
    requires k < |s|
    ensures ToLower(s)[k] as int == if 65 <= s[k] as int <= 90 then s[k] as int + 32 else s[k] as int
  {
    if k > 0 { LowerAt(s[1..], k - 1); }
  }

  /** The characters of a word from place i on spell a name, in any letter case. */
  predicate SpellsAt(word: string, name: string, i: nat)
    requires i + |name| <= |word|
  {
    forall k :: 0 <= k < |name| ==>
      || word[i + k] == name[k]
      || (97 <= name[k] as int <= 122 && word[i + k] as int == name[k] as int - 32)
  }

  /** A word is a name in any letter case, with nothing but blanks around it. */
  ghost predicate Spells(word: string, name: string) {
    exists i: nat ::
      i + |name| <= |word| && SpellsAt(word, name, i) && AllBlank(word[..i]) && AllBlank(word[i + |name|..])
  }

  /** A name without capitals that neither begins nor ends with a blank. */
  predicate IsPlainName(name: string) {
    && name != "" && !IsBlank(name[0]) && !IsBlank(name[|name| - 1])
    && forall k :: 0 <= k < |name| ==> !(65 <= name[k] as int <= 90)
  }

  /** Trimming and lowering a word gives a plain name exactly when the word spells it. */
  lemma SpellingIsTrimming(word: string, name: string)
    requires IsPlainName(name)
    ensures ToLower(TrimSpace(word)) == name <==> Spells(word, name)
  {
    if Spells(word, name) {
      var i: nat :|
        i + |name| <= |word| && SpellsAt(word, name, i) && AllBlank(word[..i]) && AllBlank(word[i + |name|..]);
      var last := |name| - 1;
      assert word[i + 0] == name[0] || word[i + 0] as int == name[0] as int - 32;
      assert word[i + last] == name[last] || word[i + last] as int == name[last] as int - 32;
      TrimSpaceAt(word, i, i + |name|);
      LoweredWord(word, name, i);
    }
    if ToLower(TrimSpace(word)) == name {
      var i, j := Middle(word);
      assert |name| == j - i;
      forall k | 0 <= k < |name|
        ensures word[i + k] == name[k] || (97 <= name[k] as int <= 122 && word[i + k] as int == name[k] as int - 32)
      {
        LowerAt(word[i..j], k);
      }
      assert SpellsAt(word, name, i);
    }
  }

  lemma LoweredWord(word: string, name: string, i: nat)
    requires IsPlainName(name) && i + |name| <= |word| && SpellsAt(word, name, i)
    ensures ToLower(word[i..i + |name|]) == name
  {
    var w := word[i..i + |name|];
    forall k | 0 <= k < |name| ensures ToLower(w)[k] == name[k] {
      LowerAt(w, k);
      assert w[k] == word[i + k];
    }
  }

  /** Cutting off the slashes behind. */
  lemma {:induction false} TrimSlashesAt(s: string, j: nat)
    requires j <= |s| && (forall k :: j <= k < |s| ==> s[k] == '/') && (j > 0 ==> s[j - 1] != '/')
    ensures TrimSlashes(s) == s[..j]
    decreases |s|
  {
    if j < |s| {
      TrimSlashesAt(s[..|s| - 1], j);
      assert s[..|s| - 1][..j] == s[..j];
    }
  }

  /** The base of a path is what follows its last slash, slashes at the very end not counting. */
  lemma BaseAt(s: string, i: nat, j: nat)
    requires i < j <= |s| && (i == 0 || s[i - 1] == '/')
    requires (forall k :: i <= k < j ==> s[k] != '/') && (forall k :: j <= k < |s| ==> s[k] == '/')
    ensures PathBase(s) == s[i..j]
  {
    TrimSlashesAt(s, j);
    var t, base := s[..j], s[i..j];
    assert forall k :: 0 <= k < |base| ==> base[k] == s[i + k];
    ContainsChar(base, '/');
    SplitStep(base, "/");
    if i > 0 {
      var dir := s[..i - 1];
      assert t == dir + "/" + base;
      SplitSnoc(dir, base, '/');
    } else {
      assert t == base;
    }
  }

  /** The place where the base of a path begins. */
  lemma BasePlace(s: string) returns (i: nat, j: nat)
    ensures i <= j <= |s| && (forall k :: i <= k < j ==> s[k] != '/') && (forall k :: j <= k < |s| ==> s[k] == '/')
    ensures i < j ==> (i == 0 || s[i - 1] == '/')
    ensures if i < j then PathBase(s) == s[i..j] else PathBase(s) == if s == "" then "." else "/"
  {
    j := |s|;
    while j > 0 && s[j - 1] == '/'
      invariant 0 <= j <= |s| && forall k :: j <= k < |s| ==> s[k] == '/'
    {
      j := j - 1;
    }
    i := j;
    while i > 0 && s[i - 1] != '/'
      invariant 0 <= i <= j && forall k :: i <= k < j ==> s[k] != '/'
    {
      i := i - 1;
    }
    if i < j { BaseAt(s, i, j); } else { TrimSlashesAt(s, j); }
  }

  // ---------- decimal numbers ----------

  predicate IsDigit(c: char) {
    '0' <= c <= '9'
  }

  predicate AllDigits(s: string) {
    forall k :: 0 <= k < |s| ==> IsDigit(s[k])
  }

  function Digits(n: nat): (s: string)
    ensures s != "" && AllDigits(s)
    ensures s[0] == '0' ==> n == 0
  {
    var d := '0' + (n % 10) as char;
    if n < 10 then [d] else Digits(n / 10) + [d]
  }

  /** strconv.Itoa, and the %d verb. */
  function Itoa(n: int): string {
    if n < 0 then "-" + Digits(-n) else Digits(n)
  }

  function Value(s: string): nat
    requires AllDigits(s)
  {
    if s == "" then 0 else 10 * Value(s[..|s| - 1]) + (s[|s| - 1] - '0') as nat
  }

  lemma {:induction false} ValueOfDigits(n: nat)
    ensures Value(Digits(n)) == n
  {
    if n >= 10 {
      ValueOfDigits(n / 10);
      assert Digits(n)[..|Digits(n)| - 1] == Digits(n / 10);
    }
  }

  function TenTo(n: nat): nat {
    if n == 0 then 1 else 10 * TenTo(n - 1)
  }

  lemma TenTimes(digit: int, power: int, rest: int)
    ensures 10 * (digit * power + rest) == digit * (10 * power) + 10 * rest
  {
  }

  /** The value of a digit depends on how many digits follow it. */
  lemma {:induction false} FirstDigitCounts(s: string)
    requires s != "" && AllDigits(s)
    ensures Value(s) == (s[0] as int - 48) * TenTo(|s| - 1) + Value(s[1..])
    decreases |s|
  {
    if |s| > 1 {
      var init, last := s[..|s| - 1], s[|s| - 1];
      FirstDigitCounts(init);
      assert s[1..][..|s| - 2] == init[1..] && s[1..][|s| - 2] == last;
      TenTimes(s[0] as int - 48, TenTo(|s| - 2), Value(init[1..]));
    }
  }

  /** No number is written with a leading zero but zero itself, and a number below ten has one digit. */
  lemma DigitsAreDecimal(n: nat)
    ensures Value(Digits(n)) == n && (n < 10 ==> Digits(n) == [(48 + n) as char])
    ensures n >= 10 ==> Digits(n)[0] != '0'
  {
    ValueOfDigits(n);
  }

  lemma DigitsInjective(m: nat, n: nat)
    requires Digits(m) == Digits(n)
    ensures m == n
  {
    ValueOfDigits(m);
    ValueOfDigits(n);
  }

  const MAX_INT64 := 0x7fff_ffff_ffff_ffff

  /**
    The value strconv.Atoi returns beside its error: 0 for text that is no number, and the nearest
    64-bit bound for a number out of range.
  */
  function Atoi(s: string): (v: int)
    ensures -MAX_INT64 - 1 <= v <= MAX_INT64
  {
    var negative := s != "" && s[0] == '-';
    var body := if s != "" && s[0] in "+-" then s[1..] else s;
    if body == "" || !AllDigits(body) then 0
    else if negative then (if Value(body) > MAX_INT64 + 1 then -MAX_INT64 - 1 else 0 - Value(body))
    else if Value(body) > MAX_INT64 then MAX_INT64
    else Value(body)
  }

  lemma AtoiOfDigits(n: nat)
    ensures Atoi(Digits(n)) == if n <= MAX_INT64 then n else MAX_INT64
  {
    ValueOfDigits(n);
    assert IsDigit(Digits(n)[0]);
  }

  lemma NoSignInDigits(n: nat)
    ensures '-' !in Digits(n) && 'v' !in Digits(n)
  {
    assert forall k :: 0 <= k < |Digits(n)| ==> IsDigit(Digits(n)[k]);
  }
}
