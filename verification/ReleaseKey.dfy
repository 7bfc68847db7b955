/** The string keys under which revisions are stored, and the two ways they are taken apart again. */
module ReleaseKey {
  import opened GoStrings

  const MIN_INT32 := -0x8000_0000
  const MAX_INT32 := 0x7fff_ffff

  type int32 = v: int | MIN_INT32 <= v <= MAX_INT32

  /** Go's conversion int32(v): the low 32 bits, read as two's complement. */
  function ToInt32(v: int): int32 {
    (v - MIN_INT32) % 0x1_0000_0000 + MIN_INT32
  }

  function MakeKey(name: string, version: int32): string {
    name + "-v" + Itoa(version)
  }

  function GetReleaseNameFromReleaseVersion(key: string): string {
    var pieces := Split(key, "-");
    Join(pieces[..|pieces| - 1], "-")
  }

  /** A number with an optional "v" in front, or 0. */
  function SuffixVersion(suffix: string): int32 {
    ToInt32(Atoi(TrimPrefix(suffix, "v")))
  }

  /** The revision number a rollback request names. */
  function RequestedVersion(key: string): int32 {
    var pieces := Split(key, "-");
    SuffixVersion(pieces[|pieces| - 1])
  }

  /** What a version contributes to the split key: one piece, or two when its sign is a separator. */
  function VersionPieces(version: int32): (pieces: seq<string>)
    ensures |pieces| == if version >= 0 then 1 else 2
    ensures pieces[|pieces| - 1] != "" && (pieces[|pieces| - 1][0] == 'v' <==> version >= 0)
  {
    if version >= 0 then ["v" + Digits(version)]
    else
      assert IsDigit(Digits(0 - version)[0]);
      ["v", Digits(0 - version)]
  }

  lemma SplitKey(name: string, version: int32)
    ensures Split(MakeKey(name, version), "-") == Split(name, "-") + VersionPieces(version)
  {
    hide Digits, Split;
    if version >= 0 { SplitPositiveKey(name, version); } else { SplitNegativeKey(name, 0 - version); }
  }

  lemma SplitPositiveKey(name: string, n: nat)
    ensures Split(name + "-v" + Digits(n), "-") == Split(name, "-") + ["v" + Digits(n)]
  {
    NoSignInDigits(n);
    hide Digits, Split;
    var last := "v" + Digits(n);
    assert name + "-v" + Digits(n) == name + "-" + last;
    SplitSnoc(name, last, '-');
  }

  lemma SplitNegativeKey(name: string, n: nat)
    ensures Split(name + "-v" + ("-" + Digits(n)), "-") == Split(name, "-") + ["v", Digits(n)]
  {
    NoSignInDigits(n);
    hide Digits, Split;
    var front := name + "-" + "v";
    assert name + "-v" + ("-" + Digits(n)) == front + "-" + Digits(n);
    SplitSnoc(name, "v", '-');
    SplitSnoc(front, Digits(n), '-');
    assert Split(name, "-") + ["v"] + [Digits(n)] == Split(name, "-") + ["v", Digits(n)];
  }

  /** What GetReleaseNameFromReleaseVersion makes of a key, as SpelledNameIsDecoded shows. */
  function SpelledName(name: string, version: int32): string {
    if version >= 0 then name else name + "-v"
  }

  lemma SpelledNameIsDecoded(name: string, version: int32)
    ensures GetReleaseNameFromReleaseVersion(MakeKey(name, version)) == SpelledName(name, version)
  {
    NameRoundTrip(name, version);
  }

  /** The name comes back from its key exactly for the versions that are not negative. */
  lemma NameRoundTrip(name: string, version: int32)
    ensures GetReleaseNameFromReleaseVersion(MakeKey(name, version)) == name <==> version >= 0
    ensures version < 0 ==> GetReleaseNameFromReleaseVersion(MakeKey(name, version)) == name + "-v"
  {
    SplitKey(name, version);
    SplitLossless(name, "-");
    var pieces := Split(MakeKey(name, version), "-");
    if version >= 0 {
      assert pieces[..|pieces| - 1] == Split(name, "-");
    } else {
      assert pieces[..|pieces| - 1] == Split(name, "-") + ["v"];
      JoinSnoc(Split(name, "-"), "v", "-");
      assert name + "-" + "v" == name + "-v";
    }
  }

  lemma SuffixOfDigits(version: int32)
    requires version >= 0
    ensures SuffixVersion("v" + Digits(version)) == version
  {
    hide Digits, Atoi;
    AtoiOfDigits(version);
    assert TrimPrefix("v" + Digits(version), "v") == Digits(version);
  }

  /** A rollback request naming a stored revision's key recovers that revision's number. */
  lemma VersionRoundTrip(name: string, version: int32)
    requires version >= 0
    ensures RequestedVersion(MakeKey(name, version)) == version
  {
    SplitKey(name, version);
    SuffixOfDigits(version);
    var pieces := Split(name, "-") + VersionPieces(version);
    assert pieces[|pieces| - 1] == "v" + Digits(version);
  }

  /** A suffix that is not a number asks for version 0. */
  lemma NonNumericSuffix(name: string, suffix: string)
    requires '-' !in suffix
    requires var t := TrimPrefix(suffix, "v");
             var body := if t != "" && t[0] == '+' then t[1..] else t;
             body == "" || !AllDigits(body)
    ensures RequestedVersion(name + "-" + suffix) == 0
    ensures GetReleaseNameFromReleaseVersion(name + "-" + suffix) == name
  {
    assert SuffixVersion(suffix) == 0;
    KeyOfSuffix(name, suffix);
  }

  /** What follows the last separator decides the version, what precedes it is the name. */
  lemma KeyOfSuffix(name: string, suffix: string)
    requires '-' !in suffix
    ensures RequestedVersion(name + "-" + suffix) == SuffixVersion(suffix)
    ensures GetReleaseNameFromReleaseVersion(name + "-" + suffix) == name
  {
    hide SuffixVersion;
    SplitSnoc(name, suffix, '-');
    SplitLossless(name, "-");
    var pieces := Split(name + "-" + suffix, "-");
    assert pieces[..|pieces| - 1] == Split(name, "-");
  }

  /** A number, marked or not, asks for its lowest 32 bits; beyond 64 bits it asks for version -1. */
  lemma NumericSuffix(name: string, n: nat, suffix: string)
    requires suffix == "v" + Digits(n) || suffix == Digits(n)
    ensures '-' !in suffix && GetReleaseNameFromReleaseVersion(name + "-" + suffix) == name
    ensures RequestedVersion(name + "-" + suffix) ==
              if n >= 0x8000_0000_0000_0000 then -1
              else if n % 0x1_0000_0000 < 0x8000_0000 then n % 0x1_0000_0000
              else n % 0x1_0000_0000 - 0x1_0000_0000
  {
    hide Digits, Atoi, ToInt32, RequestedVersion, GetReleaseNameFromReleaseVersion;
    NoSignInDigits(n);
    KeyOfSuffix(name, suffix);
    assert TrimPrefix(suffix, "v") == Digits(n) by {
      assert Digits(n)[0] != 'v';
      assert suffix != Digits(n) ==> suffix[1..] == Digits(n);
    }
    AtoiOfDigits(n);
    LowBits(n);
    LowBits(MAX_INT64);
  }

  lemma LowBits(n: nat)
    ensures ToInt32(n) == if n % 0x1_0000_0000 < 0x8000_0000 then n % 0x1_0000_0000
                          else n % 0x1_0000_0000 - 0x1_0000_0000
  {
  }

  /** No two revisions share a key, whatever their names and versions. */
  lemma KeysAreInjective(name: string, version: int32, name': string, version': int32)
    requires MakeKey(name, version) == MakeKey(name', version')
    ensures name == name' && version == version'
  {
    SplitKey(name, version);
    SplitKey(name', version');
    SameTail(Split(name, "-"), VersionPieces(version), Split(name', "-"), VersionPieces(version'));
    SplitLossless(name, "-");
    SplitLossless(name', "-");
    PiecesInjective(version, version');
  }

  lemma PiecesInjective(version: int32, version': int32)
    requires VersionPieces(version) == VersionPieces(version')
    ensures version == version'
  {
    if version >= 0 {
      assert ("v" + Digits(version))[1..] == Digits(version);
      assert ("v" + Digits(version'))[1..] == Digits(version');
      DigitsInjective(version, version');
    } else {
      DigitsInjective(0 - version, 0 - version');
    }
  }

  lemma SameTail(p: seq<string>, t: seq<string>, p': seq<string>, t': seq<string>)
    requires p + t == p' + t'
    requires |t| >= 1 && |t'| >= 1
    requires |t| == |t'| || t[|t| - 1] != t'[|t'| - 1]
    ensures p == p' && t == t'
  {
    var all := p + t;
    assert all[|all| - 1] == t[|t| - 1] && (p' + t')[|all| - 1] == t'[|t'| - 1];
    assert |p| == |p'|;
    assert p == all[..|p|] && p' == (p' + t')[..|p|];
    assert t == all[|p|..] && t' == (p' + t')[|p|..];
  }
}
