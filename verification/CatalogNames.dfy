/** What the names of migration files mean: the number before the first underscore, and
    the stem that the two files of a migration share (backend/db/migrations/embed.go). */
module CatalogNames {
  import opened MigrationCatalog
  import opened Options
  import opened Text

  // -------------------------------------------------------------------- the number

  /** What stands before the first underscore. */
  lemma {:induction false} PrefixIsCut(name: string)
    ensures match Prefix(name)
      case Some(p) => '_' !in p && |p| < |name| && name[..|p|] == p && name[|p|] == '_'
      case None => '_' !in name
  {
    if name != [] && name[0] != '_' {
      PrefixIsCut(name[1..]);
      assert name == [name[0]] + name[1..];
      if Prefix(name[1..]).Some? {
        var p := Prefix(name[1..]).value;
        assert Prefix(name) == Some([name[0]] + p);
        assert name[..|p| + 1] == [name[0]] + name[1..][..|p|];
      }
    }
  }

  lemma {:induction false} PrefixOf(p: string, rest: string)
    requires '_' !in p
    ensures Prefix(p + "_" + rest) == Some(p)
  {
    var name := p + "_" + rest;
    if p == [] {
      assert name == "_" + rest;
    } else {
      assert name[1..] == p[1..] + "_" + rest;
      PrefixOf(p[1..], rest);
      assert p[0] in p;
      assert p == [p[0]] + p[1..];
    }
  }

  /** The decimal value of digits, whatever zeros are in front. */
  lemma {:induction false} NumberOfDigits(n: nat)
    ensures AllDigits(Digits(n)) && Number(Digits(n)) == n
  {
    if n >= 10 {
      NumberOfDigits(n / 10);
      var d := Digits(n);
      assert d[..|d| - 1] == Digits(n / 10);
    } else {
      assert Digits(n)[..0] == [];
    }
  }

  lemma {:induction false} LeadingZero(digits: string)
    requires AllDigits(digits)
    ensures AllDigits("0" + digits) && Number("0" + digits) == Number(digits)
  {
    var d := "0" + digits;
    if digits == [] {
      assert d[..|d| - 1] == [];
    } else {
      var init := digits[..|digits| - 1];
      assert d[..|d| - 1] == "0" + init;
      LeadingZero(init);
    }
  }

  lemma DigitsArePlain(digits: string)
    requires AllDigits(digits) && digits != []
    ensures digits[0] != '+' && digits[0] != '-'
  {
    assert '0' <= digits[0] <= '9';
  }

  lemma ReadsUnsigned(digits: string, value: nat)
    requires AllDigits(digits) && digits != [] && value == Number(digits)
    ensures ParseInt(digits) == if value < 0x8000_0000_0000_0000 then Some(value as int) else None
  {
    DigitsArePlain(digits);
  }

  lemma ReadsSigned(s: string, digits: string, value: nat)
    requires AllDigits(digits) && digits != [] && value == Number(digits)
    requires s != [] && s[1..] == digits
    ensures s[0] == '+' ==> ParseInt(s) == if value < 0x8000_0000_0000_0000 then Some(value as int) else None
    ensures s[0] == '-' ==> ParseInt(s) == if value <= 0x8000_0000_0000_0000 then Some(0 - value) else None
  {
  }

  /** A number may carry a sign; it is read when there is a digit, nothing but digits,
      and the value fits into 64 bits. */
  lemma ReadsNumbers(digits: string)
    requires AllDigits(digits) && digits != []
    ensures ParseInt(digits) == if Number(digits) < 0x8000_0000_0000_0000 then Some(Number(digits) as int) else None
    ensures ParseInt("+" + digits) == ParseInt(digits)
    ensures ParseInt("-" + digits) == if Number(digits) <= 0x8000_0000_0000_0000 then Some(0 - Number(digits)) else None
  {
    var value := Number(digits);
    ReadsUnsigned(digits, value);
    ReadsSigned("+" + digits, digits, value);
    ReadsSigned("-" + digits, digits, value);
  }

  /** A number as it is written. */
  predicate Writes(digits: string, n: nat) {
    AllDigits(digits) && digits != [] && Number(digits) == n
  }

  lemma {:induction false} DigitsWrite(n: nat)
    ensures Writes(Digits(n), n)
  {
    NumberOfDigits(n);
    DigitsAreDigits(n);
  }

  lemma ReadsWritten(digits: string, n: nat, v: int)
    requires Writes(digits, n) && (v == n || v + n == 0)
    ensures ParseInt(if v < 0 then "-" + digits else digits) ==
      if -0x8000_0000_0000_0000 <= v < 0x8000_0000_0000_0000 then Some(v) else None
  {
    ReadsNumbers(digits);
  }

  /** Whatever is written and fits is read back. */
  lemma {:induction false} NumbersRoundTrip(v: int)
    ensures ParseInt(Itoa(v)) == if -0x8000_0000_0000_0000 <= v < 0x8000_0000_0000_0000 then Some(v) else None
  {
    var n: nat := if v < 0 then -v else v;
    DigitsWrite(n);
    ReadsWritten(Digits(n), n, v);
  }

  /** Anything else is not a number. */
  lemma ReadsNothingElse(s: string)
    ensures ParseInt(s).Some? ==>
      exists digits :: AllDigits(digits) && digits != [] && (s == digits || s == "+" + digits || s == "-" + digits)
  {
    if ParseInt(s).Some? {
      var digits := if s[0] == '+' || s[0] == '-' then s[1..] else s;
      assert AllDigits(digits) && digits != [];
      assert s == digits || s == [s[0]] + digits;
    }
  }

  // ---------------------------------------------------------------------- the pair

  lemma SuffixOf(stem: string, suffix: string)
    ensures HasSuffix(stem + suffix, suffix) && TrimSuffix(stem + suffix, suffix) == stem
  {
    assert (stem + suffix)[|stem|..] == suffix;
    assert (stem + suffix)[..|stem|] == stem;
  }

  lemma EndsDifferently(stem: string)
    ensures !HasSuffix(stem + DOWN, UP)
  {
    var s := stem + DOWN;
    var end := s[|s| - |UP|..];
    assert end[2] == s[|stem| + 4] == DOWN[4] != UP[2];
  }

  lemma VersionIsRead(v: int, number: string, text: string, suffix: string)
    requires ParseInt(number) == Some(v) && '_' !in number
    ensures VersionOf(number + "_" + text + suffix) == Some(v)
  {
    assert number + "_" + text + suffix == number + "_" + (text + suffix);
    PrefixOf(number, text + suffix);
  }

  lemma PairOfStem(v: int, stem: string)
    requires VersionOf(stem + UP) == Some(v) && VersionOf(stem + DOWN) == Some(v)
    ensures Pair(Entry(stem + UP, false), Entry(stem + DOWN, false), v)
  {
    SuffixOf(stem, UP);
    SuffixOf(stem, DOWN);
    EndsDifferently(stem);
  }

  /** The two files of a migration are a number, an underscore, any text, and one of
      the two endings. */
  lemma PairOf(v: int, number: string, text: string)
    requires ParseInt(number) == Some(v) && '_' !in number
    ensures var stem := number + "_" + text;
      Pair(Entry(stem + ".up.sql", false), Entry(stem + ".down.sql", false), v)
  {
    VersionIsRead(v, number, text, UP);
    VersionIsRead(v, number, text, DOWN);
    PairOfStem(v, number + "_" + text);
  }

  /** Every pair is of that form. */
  lemma PairHasStem(up: Entry, down: Entry, v: int) returns (number: string, text: string)
    requires Pair(up, down, v)
    ensures ParseInt(number) == Some(v) && '_' !in number && !up.isDir && !down.isDir
    ensures up.name == number + "_" + text + ".up.sql" && down.name == number + "_" + text + ".down.sql"
  {
    var stem := TrimSuffix(up.name, UP);
    HasStem(up.name, UP);
    HasStem(down.name, DOWN);
    PrefixIsCut(up.name);
    number := Prefix(up.name).value;
    text := AfterUnderscore(stem, number);
  }

  lemma HasStem(name: string, suffix: string)
    requires HasSuffix(name, suffix)
    ensures name == TrimSuffix(name, suffix) + suffix
  {
    assert name == name[..|name| - |suffix|] + name[|name| - |suffix|..];
  }

  /** The underscore of a name stands before its ending, which holds none. */
  lemma AfterUnderscore(stem: string, number: string) returns (text: string)
    requires |number| < |stem + UP| && (stem + UP)[..|number|] == number && (stem + UP)[|number|] == '_'
    ensures stem == number + "_" + text
  {
    var name := stem + UP;
    assert forall i :: |stem| <= i < |name| ==> name[i] == UP[i - |stem|] != '_';
    assert stem == name[..|stem|];
    text := stem[|number| + 1..];
    assert stem == stem[..|number|] + [stem[|number|]] + text;
    assert stem[..|number|] == name[..|number|];
  }

  /** The usual names: migration number n, zeros in front or not. */
  lemma {:induction false} NumberedPair(n: nat, zeros: nat, text: string)
    requires n < 0x8000_0000_0000_0000
    ensures var stem := Zeros(zeros) + Digits(n) + "_" + text;
      Pair(Entry(stem + ".up.sql", false), Entry(stem + ".down.sql", false), n)
  {
    NumberOfDigits(n);
    DigitsAreDigits(n);
    ZerosDoNotCount(zeros, Digits(n), n);
    var number := Zeros(zeros) + Digits(n);
    ReadsNumbers(number);
    assert forall c :: c in number ==> exists i :: 0 <= i < |number| && number[i] == c;
    PairOf(n, number, text);
  }

  function Zeros(n: nat): string {
    if n == 0 then "" else "0" + Zeros(n - 1)
  }

  predicate NumberIs(digits: string, value: nat) {
    AllDigits(digits) && Number(digits) == value
  }

  lemma ZeroInFront(k: nat, digits: string, value: nat)
    requires NumberIs(Zeros(k) + digits, value)
    ensures NumberIs(Zeros(k + 1) + digits, value)
  {
    LeadingZero(Zeros(k) + digits);
    assert Zeros(k + 1) + digits == "0" + (Zeros(k) + digits);
  }

  lemma {:induction false} ZerosDoNotCount(n: nat, digits: string, value: nat)
    requires NumberIs(digits, value)
    ensures NumberIs(Zeros(n) + digits, value)
  {
    assert Zeros(0) + digits == digits;
    for k := 0 to n
      invariant NumberIs(Zeros(k) + digits, value)
    {
      ZeroInFront(k, digits, value);
    }
  }
}
