/** Slugs, version numbers and file names of migrations. */
module MigrationNames {

  import opened Common

  // Slugs.

  predicate Usable(c: char) {
    'a' <= c <= 'z' || '0' <= c <= '9'
  }

  /** Lower case, as far as it matters for what is usable: besides A to Z two characters
      outside ASCII have a lower case inside it. */
  function LowerChar(c: char): char {
    if 'A' <= c <= 'Z' then c + 32 as char
    else if c == '\U{0130}' then 'i'
    else if c == '\U{212A}' then 'k'
    else c
  }

  function Lower(s: string): string {
    seq(|s|, i requires 0 <= i < |s| => LowerChar(s[i]))
  }

  /** Every run of unusable characters becomes one underscore. */
  function Collapse(s: string): string {
    if s == "" then ""
    else
      var n := |s| - 1;
      var before := Collapse(s[..n]);
      if Usable(s[n]) then before + [s[n]]
      else if n > 0 && !Usable(s[n - 1]) then before
      else before + "_"
  }

  function TrimLeft(s: string): string {
    if s != "" && s[0] == '_' then TrimLeft(s[1..]) else s
  }

  function TrimRight(s: string): string {
    if s != "" && s[|s| - 1] == '_' then TrimRight(s[..|s| - 1]) else s
  }

  function Slug(name: string): string {
    TrimRight(TrimLeft(Collapse(Lower(name))))
  }

  /** Words of usable characters joined by single underscores. */
  predicate IsSlug(s: string) {
    && s != "" && s[0] != '_' && s[|s| - 1] != '_'
    && SingleUnderscores(s)
  }

  predicate SingleUnderscores(s: string) {
    && (forall i | 0 <= i < |s| :: Usable(s[i]) || s[i] == '_')
    && (forall i | 0 <= i < |s| - 1 :: s[i] == '_' ==> s[i + 1] != '_')
  }

  /** The usable characters, in order. */
  function Letters(s: string): string {
    if s == "" then ""
    else Letters(s[..|s| - 1]) + if Usable(s[|s| - 1]) then [s[|s| - 1]] else ""
  }

  lemma {:induction false} CollapseShape(s: string)
    ensures SingleUnderscores(Collapse(s))
    ensures s != "" ==> Collapse(s) != "" && (Collapse(s)[|Collapse(s)| - 1] == '_' <==> !Usable(s[|s| - 1]))
  {
    if s != "" {
      CollapseShape(s[..|s| - 1]);
    }
  }

  lemma {:induction false} LettersConcat(a: string, b: string)
    ensures Letters(a + b) == Letters(a) + Letters(b)
  {
    if b == "" {
      assert a + b == a;
    } else {
      var n := |b| - 1;
      assert (a + b)[..|a| + n] == a + b[..n];
      LettersConcat(a, b[..n]);
    }
  }

  lemma LettersOfOne(c: char)
    ensures Letters([c]) == if Usable(c) then [c] else ""
  {
    assert [c][..0] == "";
  }

  lemma {:induction false} CollapseLetters(s: string)
    ensures Letters(Collapse(s)) == Letters(s)
  {
    if s != "" {
      var n := |s| - 1;
      CollapseLetters(s[..n]);
      LettersConcat(Collapse(s[..n]), [s[n]]);
      LettersConcat(Collapse(s[..n]), "_");
      LettersOfOne(s[n]);
      LettersOfOne('_');
    }
  }

  lemma {:induction false} TrimLeftShape(s: string)
    requires SingleUnderscores(s)
    ensures var t := TrimLeft(s); SingleUnderscores(t) && (t != "" ==> t[0] != '_') && Letters(t) == Letters(s)
  {
    if s != "" && s[0] == '_' {
      TailSingle(s);
      assert TrimLeft(s) == TrimLeft(s[1..]);
      hide TrimLeft, Letters, SingleUnderscores;
      TrimLeftShape(s[1..]);
      assert s == ['_'] + s[1..];
      LettersConcat(['_'], s[1..]);
      LettersOfOne('_');
    } else {
      hide Letters, SingleUnderscores;
    }
  }

  lemma TailSingle(s: string)
    requires SingleUnderscores(s) && s != ""
    ensures SingleUnderscores(s[1..])
  {}

  lemma {:induction false} TrimRightShape(s: string)
    requires SingleUnderscores(s) && (s != "" ==> s[0] != '_')
    ensures var t := TrimRight(s);
      && SingleUnderscores(t) && (t != "" ==> t[0] != '_' && t[|t| - 1] != '_') && Letters(t) == Letters(s)
  {
    if s != "" && s[|s| - 1] == '_' {
      TrimRightShape(s[..|s| - 1]);
    }
  }

  lemma {:induction false} NoLetters(s: string)
    ensures Letters(s) == "" <==> forall i | 0 <= i < |s| :: !Usable(s[i])
  {
    if s != "" {
      var n := |s| - 1;
      NoLetters(s[..n]);
      assert forall i | 0 <= i < n :: s[..n][i] == s[i];
    }
  }

  /** Main result: a slug is words joined by single underscores, it keeps the usable characters
      of the name and their order, and it is empty only when there are none. */
  lemma SlugShape(name: string)
    ensures Slug(name) == "" || IsSlug(Slug(name))
    ensures Letters(Slug(name)) == Letters(Lower(name))
    ensures Slug(name) == "" <==> forall i | 0 <= i < |name| :: !Usable(LowerChar(name[i]))
  {
    hide Collapse, TrimLeft, TrimRight, Usable, LowerChar;
    var s := Lower(name);
    CollapseShape(s);
    CollapseLetters(s);
    TrimLeftShape(Collapse(s));
    TrimRightShape(TrimLeft(Collapse(s)));
    NoLetters(s);
    NoLetters(Slug(name));
    assert forall i | 0 <= i < |name| :: s[i] == LowerChar(name[i]);
    if Slug(name) != "" {
      assert Usable(Slug(name)[0]);
      var i :| 0 <= i < |s| && Usable(s[i]);
      assert Usable(LowerChar(name[i]));
    }
  }

  lemma {:induction false} CollapseSlug(s: string)
    requires SingleUnderscores(s)
    ensures Collapse(s) == s
  {
    if s != "" {
      CollapseSlug(s[..|s| - 1]);
    }
  }

  /** Main result: the slugs are exactly the names that slugging leaves as they are, so
      slugging a slug changes nothing. */
  lemma SlugsAreFixedPoints(s: string)
    ensures IsSlug(s) <==> s != "" && Slug(s) == s
    ensures Slug(Slug(s)) == Slug(s)
  {
    SlugShape(s);
    if IsSlug(s) {
      SlugOfSlug(s);
    }
    if Slug(s) != "" {
      SlugOfSlug(Slug(s));
    } else {
      assert Lower("") == "";
    }
  }

  lemma SlugOfSlug(s: string)
    requires IsSlug(s)
    ensures Slug(s) == s
  {
    assert Lower(s) == s;
    CollapseSlug(s);
  }

  // The words of a slug.

  /** The maximal runs of usable characters, in order. */
  function Words(s: string): seq<string> {
    if s == "" then []
    else
      var n := |s| - 1;
      var before := Words(s[..n]);
      if !Usable(s[n]) then before
      else if n > 0 && Usable(s[n - 1]) && before != [] then before[..|before| - 1] + [before[|before| - 1] + [s[n]]]
      else before + [[s[n]]]
  }

  function Join(words: seq<string>): string {
    if words == [] then ""
    else if |words| == 1 then words[0]
    else Join(words[..|words| - 1]) + "_" + words[|words| - 1]
  }

  lemma {:induction false} WordsEndLikeName(s: string)
    ensures s != "" && Usable(s[|s| - 1]) ==> Words(s) != []
    ensures Words(s) == [] <==> forall i | 0 <= i < |s| :: !Usable(s[i])
  {
    if s != "" {
      var n := |s| - 1;
      WordsEndLikeName(s[..n]);
      assert forall i | 0 <= i < n :: s[..n][i] == s[i];
    }
  }

  lemma JoinExtends(words: seq<string>, c: char)
    requires words != []
    ensures var n := |words| - 1; Join(words[..n] + [words[n] + [c]]) == Join(words) + [c]
  {
    var n := |words| - 1;
    var longer := words[..n] + [words[n] + [c]];
    assert longer[..n] == words[..n] && longer[n] == words[n] + [c] && |longer| == n + 1;
  }

  lemma JoinAppends(words: seq<string>, word: string)
    requires words != []
    ensures Join(words + [word]) == Join(words) + "_" + word
  {
    assert (words + [word])[..|words|] == words;
  }

  function Lead(s: string): string {
    if s != "" && !Usable(s[0]) then "_" else ""
  }

  function Trail(s: string): string {
    if s != "" && !Usable(s[|s| - 1]) then "_" else ""
  }

  lemma CollapseStep(s: string)
    requires s != ""
    ensures var n := |s| - 1;
      Collapse(s) == Collapse(s[..n])
        + if Usable(s[n]) then [s[n]] else if n > 0 && !Usable(s[n - 1]) then "" else "_"
  {}

  /** The words joined, with one more character: in the last word, or starting a word. */
  function Longer(words: seq<string>, inWord: bool, c: char): string {
    if words == [] then [c] else if inWord then Join(words) + [c] else Join(words) + "_" + [c]
  }

  lemma JoinStep(s: string)
    requires s != ""
    ensures var n := |s| - 1;
      var before := Words(s[..n]);
      && (!Usable(s[n]) ==> Words(s) == before)
      && (Usable(s[n]) ==> Words(s) != [] && Join(Words(s)) == Longer(before, n > 0 && Usable(s[n - 1]), s[n]))
  {
    var n := |s| - 1;
    var before := Words(s[..n]);
    WordsEndLikeName(s[..n]);
    if before != [] {
      hide Join;
      JoinExtends(before, s[n]);
      JoinAppends(before, [s[n]]);
    }
  }

  /** Adding a last character to what collapsing has made so far. */
  lemma Glue(lead: string, j: string, c: char)
    ensures (lead + j + "") + [c] == lead + (j + [c]) + ""
    ensures (lead + j + "_") + [c] == lead + (j + "_" + [c]) + ""
    ensures (lead + j + "") + "_" == lead + j + "_"
    ensures (lead + j + "_") + "" == lead + j + "_"
    ensures lead + [c] == lead + [c] + "" && lead + "" == lead && "" + "_" == "_" && "" + [c] == [c]
  {}

  lemma {:induction false} CollapseJoins(s: string)
    ensures Collapse(s) == if Words(s) == [] then Lead(s) else Lead(s) + Join(Words(s)) + Trail(s)
  {
    if s == "" {
      assert Words(s) == [];
    } else {
      hide Words, Join, Collapse, Lead, Trail, Usable;
      var n := |s| - 1;
      CollapseJoins(s[..n]);
      CollapseStep(s);
      JoinStep(s);
      BeforeLast(s);
      Glue(Lead(s), Join(Words(s[..n])), s[n]);
    }
  }

  /** Without a word so far, what comes before the last character is nothing or one gap. */
  lemma BeforeLast(s: string)
    requires s != ""
    ensures var n := |s| - 1;
      && (n == 0 ==> Words(s[..n]) == [] && Lead(s[..n]) == "" && Lead(s) == if Usable(s[n]) then "" else "_")
      && (n > 0 ==> Lead(s[..n]) == Lead(s) && Trail(s[..n]) == if Usable(s[n - 1]) then "" else "_")
      && (n > 0 && Words(s[..n]) == [] ==> !Usable(s[n - 1]))
      && Trail(s) == if Usable(s[n]) then "" else "_"
  {
    var n := |s| - 1;
    WordsEndLikeName(s[..n]);
    if n > 0 {
      assert s[..n][n - 1] == s[n - 1];
    }
  }

  lemma {:induction false} JoinEnds(s: string)
    requires Words(s) != []
    ensures var j := Join(Words(s)); j != "" && Usable(j[0]) && Usable(j[|j| - 1])
  {
    WordsEndLikeName(s);
    hide Words, Join;
    JoinStep(s);
    var n := |s| - 1;
    if Words(s[..n]) != [] {
      JoinEnds(s[..n]);
    }
  }

  lemma TrimsLead(body: string, lead: string)
    requires lead in {"", "_"} && body != "" && Usable(body[0])
    ensures TrimLeft(lead + body) == body
  {
    assert TrimLeft(body) == body;
    assert "" + body == body;
    assert ("_" + body)[1..] == body;
  }

  lemma TrimsTrail(body: string, trail: string)
    requires trail in {"", "_"} && body != "" && Usable(body[|body| - 1])
    ensures TrimRight(body + trail) == body
  {
    assert TrimRight(body) == body;
    assert body + "" == body;
    assert (body + "_")[..|body|] == body;
  }

  lemma TrimsEnds(middle: string, lead: string, trail: string)
    requires lead in {"", "_"} && trail in {"", "_"}
    requires middle != "" && Usable(middle[0]) && Usable(middle[|middle| - 1])
    ensures TrimRight(TrimLeft(lead + middle + trail)) == middle
  {
    hide TrimLeft, TrimRight;
    assert lead + middle + trail == lead + (middle + trail);
    TrimsLead(middle + trail, lead);
    TrimsTrail(middle, trail);
  }

  /** Main result: a slug is the words of the name in lower case, joined by underscores. */
  lemma SlugJoinsWords(name: string)
    ensures Slug(name) == Join(Words(Lower(name)))
  {
    var s := Lower(name);
    CollapseJoins(s);
    GapTrims();
    GapsAtEnds(s);
    if Words(s) != [] {
      JoinEnds(s);
    } else {
      assert Join(Words(s)) == "";
    }
    hide Words, Join, Collapse, TrimLeft, TrimRight, Usable, Lower, Lead, Trail;
    if Words(s) != [] {
      TrimsEnds(Join(Words(s)), Lead(s), Trail(s));
    }
  }

  lemma GapTrims()
    ensures TrimRight(TrimLeft("_")) == "" && TrimRight(TrimLeft("")) == ""
  {
    assert TrimLeft("_") == "" && TrimRight("") == "";
  }

  lemma GapsAtEnds(s: string)
    ensures Lead(s) in {"", "_"} && Trail(s) in {"", "_"}
  {}

  /** What a single character leaves in a slug: letters lowered, digits as they are, the two
      characters outside ASCII that lower into it, and nothing of any other. */
  lemma SlugAlphabet(c: char)
    ensures Letters(Lower([c])) ==
      if 'a' <= c <= 'z' || '0' <= c <= '9' then [c]
      else if 'A' <= c <= 'Z' then ['a' + (c - 'A')]
      else if c == '\U{0130}' then "i" else if c == '\U{212A}' then "k" else ""
  {
    assert Lower([c]) == [LowerChar(c)];
    hide Letters, Lower;
    LettersOfOne(LowerChar(c));
  }

  // Version numbers.

  const MAX_INT: int := 0x7fff_ffff_ffff_ffff

  /** Addition on 64-bit integers. */
  function Wrap(n: int): int {
    if n > MAX_INT then n - 0x1_0000_0000_0000_0000 else n
  }

  predicate IsDigit(c: char) {
    '0' <= c <= '9'
  }

  function Digit(d: int): char
    requires 0 <= d < 10
  {
    '0' + d as char
  }

  function Decimal(n: nat): string {
    if n < 10 then [Digit(n)] else Decimal(n / 10) + [Digit(n % 10)]
  }

  function ZeroPad(s: string, width: nat): string
    decreases width - |s|
  {
    if |s| >= width then s else ZeroPad("0" + s, width)
  }

  /** A decimal number in at least five places, its sign included. */
  function Format(n: int): string {
    if n >= 0 then ZeroPad(Decimal(n), 5) else "-" + ZeroPad(Decimal(-n), 4)
  }

  function FileName(version: int, slug: string): string {
    Format(version) + "_" + slug + ".sql"
  }

  function DigitValue(c: char): nat
    requires IsDigit(c)
  {
    c as int - '0' as int
  }

  function Value(digits: string): nat
    requires forall i | 0 <= i < |digits| :: IsDigit(digits[i])
  {
    if digits == "" then 0
    else Value(digits[..|digits| - 1]) * 10 + DigitValue(digits[|digits| - 1])
  }

  function LeadingDigits(name: string): (n: nat)
    ensures n <= |name| && forall i | 0 <= i < n :: IsDigit(name[i])
    ensures n < |name| ==> !IsDigit(name[n])
  {
    if name != "" && IsDigit(name[0]) then 1 + LeadingDigits(name[1..]) else 0
  }

  /** Leading digits up to an underscore, unless they overflow. */
  function VersionOf(name: string): Option<nat> {
    var n := LeadingDigits(name);
    if n > 0 && n < |name| && name[n] == '_' && Value(name[..n]) <= MAX_INT then Some(Value(name[..n])) else None
  }

  predicate AllDigits(s: string) {
    forall i | 0 <= i < |s| :: IsDigit(s[i])
  }

  lemma {:induction false} DecimalValue(n: nat)
    ensures AllDigits(Decimal(n)) && Decimal(n) != "" && Value(Decimal(n)) == n
  {
    if n >= 10 {
      DecimalValue(n / 10);
      assert Decimal(n)[..|Decimal(n)| - 1] == Decimal(n / 10);
    } else {
      assert Decimal(n)[..0] == "";
    }
  }

  lemma {:induction false} LeadingZero(s: string)
    requires AllDigits(s)
    ensures AllDigits("0" + s) && Value("0" + s) == Value(s)
  {
    if s == "" {
      assert "0"[..0] == "";
    } else {
      var n := |s| - 1;
      LeadingZero(s[..n]);
      assert ("0" + s)[..n + 1] == "0" + s[..n];
    }
  }

  lemma {:induction false} ZeroPadValue(s: string, width: nat)
    requires AllDigits(s)
    ensures AllDigits(ZeroPad(s, width)) && |ZeroPad(s, width)| >= |s| && Value(ZeroPad(s, width)) == Value(s)
    decreases width - |s|
  {
    if |s| < width {
      LeadingZero(s);
      ZeroPadValue("0" + s, width);
    }
  }

  lemma {:induction false} LeadingDigitsOf(digits: string, rest: string)
    requires AllDigits(digits) && rest != "" && !IsDigit(rest[0])
    ensures LeadingDigits(digits + rest) == |digits|
  {
    var name := digits + rest;
    assert forall i | 0 <= i < |digits| :: IsDigit(name[i]);
    assert !IsDigit(name[|digits|]);
  }

  lemma ParsesBack(digits: string, rest: string)
    requires AllDigits(digits) && digits != "" && rest != "" && rest[0] == '_' && Value(digits) <= MAX_INT
    ensures VersionOf(digits + rest) == Some(Value(digits))
  {
    hide Value, LeadingDigits;
    LeadingDigitsOf(digits, rest);
    assert (digits + rest)[..|digits|] == digits;
  }

  lemma NoVersion(name: string)
    requires name != "" && !IsDigit(name[0])
    ensures VersionOf(name) == None
  {}

  lemma FormatParts(version: int, slug: string)
    ensures FileName(version, slug) == Format(version) + ("_" + slug + ".sql")
    ensures version < 0 ==> FileName(version, slug) != "" && !IsDigit(FileName(version, slug)[0])
    ensures version >= 0 ==> AllDigits(Format(version)) && Format(version) != "" && Value(Format(version)) == version
  {
    hide Decimal, ZeroPad, Value;
    if version >= 0 {
      DecimalValue(version);
      ZeroPadValue(Decimal(version), 5);
    }
  }

  /** Main result: the version printed into a file name is the one parsed back out of it; a
      version that wrapped to a negative number is not parsed at all. */
  lemma VersionRoundTrip(version: int, slug: string)
    requires version <= MAX_INT
    ensures VersionOf(FileName(version, slug)) == if version >= 0 then Some(version) else None
  {
    hide VersionOf, Format, FileName;
    FormatParts(version, slug);
    if version >= 0 {
      ParsesBack(Format(version), "_" + slug + ".sql");
    } else {
      NoVersion(FileName(version, slug));
    }
  }

  // What the names look like.

  lemma NextPlace(digits: string, d: nat)
    requires AllDigits(digits) && d < 10
    ensures var longer := digits + ["0123456789"[d]]; AllDigits(longer) && Value(longer) == 10 * Value(digits) + d
    ensures Value("") == 0
  {
    var longer := digits + ["0123456789"[d]];
    assert longer[..|digits|] == digits;
    assert "0123456789"[d] == Digit(d);
  }

  /** The name starts with k > 0 digits and an underscore. */
  predicate Numbered(name: string, k: nat) {
    0 < k < |name| && name[k] == '_' && forall i | 0 <= i < k :: '0' <= name[i] <= '9'
  }

  /** Leading digits up to an underscore make a version, if 64 bits hold their value. */
  lemma VersionOfIff(name: string, v: nat)
    ensures VersionOf(name) == Some(v)
      <==> exists k: nat :: Numbered(name, k) && Value(name[..k]) == v <= 0x7fff_ffff_ffff_ffff
  {
    hide Value, LeadingDigits;
    if k: nat :| Numbered(name, k) && Value(name[..k]) == v <= 0x7fff_ffff_ffff_ffff {
      LeadingDigitsOf(name[..k], name[k..]);
      assert name == name[..k] + name[k..];
    }
    assert VersionOf(name).Some? ==> Numbered(name, LeadingDigits(name));
  }

  function Ten(k: nat): nat {
    if k == 0 then 1 else 10 * Ten(k - 1)
  }

  /** As many digits as the number has, and no leading zero. */
  lemma {:induction false} DecimalWidth(n: nat, k: nat)
    requires k > 0
    ensures |Decimal(n)| <= k <==> n < Ten(k)
    ensures n > 0 ==> Decimal(n)[0] != '0'
  {
    if k > 1 && n >= 10 {
      DecimalWidth(n / 10, k - 1);
    } else if n >= 10 {
      DecimalWidth(n / 10, 1);
    } else if k > 1 {
      assert Ten(k) >= 10 by { TenGrows(k); }
    }
  }

  lemma {:induction false} TenGrows(k: nat)
    requires k > 0
    ensures Ten(k) >= 10
  {
    if k > 1 {
      TenGrows(k - 1);
    }
  }

  lemma {:induction false} ZeroPadWidth(s: string, width: nat)
    ensures |ZeroPad(s, width)| == if |s| < width then width else |s|
    ensures |s| >= width ==> ZeroPad(s, width) == s
    decreases width - |s|
  {
    if |s| < width {
      ZeroPadWidth("0" + s, width);
    }
  }

  lemma FiveDigits(n: nat)
    ensures |Decimal(n)| <= 5 <==> n < 100_000
  {
    DecimalWidth(n, 5);
    assert Ten(1) == 10 && Ten(2) == 100 && Ten(3) == 1000 && Ten(4) == 10_000 && Ten(5) == 100_000;
  }

  /** A name is the version in five places, or in as many as it takes, then the slug. */
  lemma NameShape(version: nat, slug: string)
    ensures var digits := Format(version);
      && FileName(version, slug) == digits + "_" + slug + ".sql"
      && AllDigits(digits) && Value(digits) == version
      && (if version < 100_000 then |digits| == 5 else |digits| > 5 && digits[0] != '0')
  {
    hide Decimal, ZeroPad, Value;
    DecimalValue(version);
    ZeroPadValue(Decimal(version), 5);
    ZeroPadWidth(Decimal(version), 5);
    FiveDigits(version);
    DecimalWidth(version, 1);
  }

  // The order of the names.

  /** a comes before b in the order of a directory listing. */
  predicate ListedBefore(a: string, b: string) {
    a < b || exists k | 0 <= k < |a| && k < |b| :: a[..k] == b[..k] && a[k] < b[k]
  }

  lemma {:induction false} SameValue(a: string, b: string)
    requires AllDigits(a) && AllDigits(b) && |a| == |b| && Value(a) == Value(b)
    ensures a == b
  {
    if a != "" {
      var n := |a| - 1;
      LastPlaces(a, b);
      SameValue(a[..n], b[..n]);
      assert a == a[..n] + [a[n]] && b == b[..n] + [b[n]];
    }
  }

  /** The last places of two numbers, against the places before them. */
  lemma LastPlaces(a: string, b: string)
    requires AllDigits(a) && AllDigits(b) && |a| == |b| > 0
    ensures var n := |a| - 1;
      && AllDigits(a[..n]) && AllDigits(b[..n])
      && (Value(a) == Value(b) ==> Value(a[..n]) == Value(b[..n]) && a[n] == b[n])
      && (Value(a) < Value(b) ==> Value(a[..n]) < Value(b[..n]) || (Value(a[..n]) == Value(b[..n]) && a[n] < b[n]))
  {
    hide Value;
    LastPlace(a);
    LastPlace(b);
  }

  lemma LastPlace(s: string)
    requires AllDigits(s) && s != ""
    ensures var n := |s| - 1;
      AllDigits(s[..n]) && Value(s) == Value(s[..n]) * 10 + (s[n] as int - '0' as int)
  {}

  lemma {:induction false} FirstDifference(a: string, b: string) returns (k: nat)
    requires AllDigits(a) && AllDigits(b) && |a| == |b| && Value(a) < Value(b)
    ensures k < |a| && a[..k] == b[..k] && a[k] < b[k]
  {
    if a == "" {
      assert false;
    } else {
      var n := |a| - 1;
      LastPlaces(a, b);
      if Value(a[..n]) < Value(b[..n]) {
        k := FirstDifference(a[..n], b[..n]);
        assert a[..n][..k] == a[..k] && b[..n][..k] == b[..k];
      } else {
        SameValue(a[..n], b[..n]);
        k := n;
      }
    }
  }

  lemma ListedByVersion(v: nat, w: nat, slug: string, slug': string)
    requires v < w < 100_000
    ensures ListedBefore(FileName(v, slug), FileName(w, slug'))
  {
    hide Format, FileName, Value;
    NameShape(v, slug);
    NameShape(w, slug');
    var k := FirstDifference(Format(v), Format(w));
    var a, b := FileName(v, slug), FileName(w, slug');
    assert a[..k] == Format(v)[..k] && b[..k] == Format(w)[..k];
  }

  lemma SixDigitsFirst()
    ensures Format(99_999)[0] == '9' && Format(100_000)[0] == '1'
  {
    assert Decimal(9) == "9" && Decimal(99) == "99" && Decimal(999) == "999";
    assert Decimal(9999) == "9999" && Decimal(99_999) == "99999";
    assert Decimal(1) == "1" && Decimal(10) == "10" && Decimal(100) == "100";
    assert Decimal(1000) == "1000" && Decimal(10_000) == "10000" && Decimal(100_000) == "100000";
  }

  /** A directory lists migrations in the order of their versions. */
  ghost predicate ListsInOrder(top: nat) {
    forall v: nat, w: nat, slug, slug' | v < w <= top :: ListedBefore(FileName(v, slug), FileName(w, slug'))
  }

  /** Main result: five places keep the listing in the order of the versions exactly below
      100,000. */
  lemma ListsInOrderIff(top: nat)
    ensures ListsInOrder(top) <==> top < 100_000
  {
    hide FileName, ListedBefore;
    if top < 100_000 {
      forall v: nat, w: nat, slug, slug' | v < w <= top
        ensures ListedBefore(FileName(v, slug), FileName(w, slug'))
      {
        ListedByVersion(v, w, slug, slug');
      }
    } else {
      OutOfOrder();
      assert !ListsInOrder(top);
    }
  }

  lemma FirstCharacters(a: string, b: string)
    requires a != "" && b != "" && ListedBefore(a, b)
    ensures a[0] <= b[0]
  {
    if !(a < b) {
      var k :| 0 <= k < |a| && k < |b| && a[..k] == b[..k] && a[k] < b[k];
      if k > 0 {
        assert a[..k][0] == b[..k][0];
      }
    }
  }

  lemma OutOfOrder()
    ensures !ListedBefore(FileName(99_999, "a"), FileName(100_000, "a"))
  {
    hide Format, FileName;
    NameShape(99_999, "a");
    NameShape(100_000, "a");
    SixDigitsFirst();
    var a, b := FileName(99_999, "a"), FileName(100_000, "a");
    assert a[0] == '9' && b[0] == '1';
    if ListedBefore(a, b) {
      FirstCharacters(a, b);
    }
  }

  // The directory.

  function Versions(names: set<string>): set<nat> {
    set name | name in names && VersionOf(name).Some? :: VersionOf(name).value
  }

  /** The highest of some versions, zero when there are none. */
  ghost function Highest(versions: set<nat>): (h: nat)
    ensures forall v | v in versions :: v <= h
    ensures if versions == {} then h == 0 else h in versions
  {
    if versions == {} then 0
    else
      var v :| v in versions;
      var rest := Highest(versions - {v});
      assert versions == versions - {v} + {v};
      if v < rest then rest else v
  }

  ghost function Next(names: set<string>): int {
    Wrap(Highest(Versions(names)) + 1)
  }

  predicate Sorted(s: seq<nat>) {
    forall i, j | 0 <= i < j < |s| :: s[i] <= s[j]
  }

  function Insert(s: seq<nat>, v: nat): seq<nat> {
    if s == [] || s[|s| - 1] <= v then s + [v] else Insert(s[..|s| - 1], v) + [s[|s| - 1]]
  }

  function Sort(s: seq<nat>): seq<nat> {
    if s == [] then [] else Insert(Sort(s[..|s| - 1]), s[|s| - 1])
  }

  lemma {:induction false} InsertKeeps(s: seq<nat>, v: nat)
    ensures multiset(Insert(s, v)) == multiset(s) + multiset{v}
  {
    if s != [] && s[|s| - 1] > v {
      InsertKeeps(s[..|s| - 1], v);
      assert s == s[..|s| - 1] + [s[|s| - 1]];
    }
  }

  /** Nothing inserted comes after the later of the new value and the old last one. */
  lemma {:induction false} InsertBelow(s: seq<nat>, v: nat, top: nat)
    requires v <= top && forall i | 0 <= i < |s| :: s[i] <= top
    ensures forall i | 0 <= i < |Insert(s, v)| :: Insert(s, v)[i] <= top
  {
    if s != [] && s[|s| - 1] > v {
      var n := |s| - 1;
      InsertBelow(s[..n], v, top);
      InsertStep(s, v);
      hide Insert;
    }
  }

  lemma InsertStep(s: seq<nat>, v: nat)
    requires s != [] && s[|s| - 1] > v
    ensures Insert(s, v) == Insert(s[..|s| - 1], v) + [s[|s| - 1]]
  {}

  lemma SortedSnoc(s: seq<nat>, top: nat)
    requires Sorted(s) && forall i | 0 <= i < |s| :: s[i] <= top
    ensures Sorted(s + [top])
  {}

  lemma SortedSplit(s: seq<nat>)
    requires Sorted(s) && s != []
    ensures var n := |s| - 1; Sorted(s[..n]) && forall i | 0 <= i < n :: s[..n][i] <= s[n]
  {}

  lemma {:induction false} InsertSorts(s: seq<nat>, v: nat)
    requires Sorted(s)
    ensures Sorted(Insert(s, v))
  {
    if s != [] {
      SortedSplit(s);
    }
    if s == [] || s[|s| - 1] <= v {
      assert forall i | 0 <= i < |s| :: s[i] <= v;
      SortedSnoc(s, v);
    } else {
      var n := |s| - 1;
      InsertStep(s, v);
      hide Insert, Sorted;
      InsertSorts(s[..n], v);
      InsertBelow(s[..n], v, s[n]);
      SortedSnoc(Insert(s[..n], v), s[n]);
    }
  }

  lemma {:induction false} SortSorts(s: seq<nat>)
    ensures Sorted(Sort(s)) && multiset(Sort(s)) == multiset(s)
  {
    if s != [] {
      var n := |s| - 1;
      SortSorts(s[..n]);
      InsertSorts(Sort(s[..n]), s[n]);
      InsertKeeps(Sort(s[..n]), s[n]);
      assert s == s[..n] + [s[n]];
    }
  }

  function Elements(s: seq<nat>): set<nat> {
    set v | v in s
  }

  lemma ElementsOfOneMore(s: seq<nat>, v: nat)
    ensures Elements(s + [v]) == Elements(s) + {v}
  {}

  lemma NoElements(names: set<string>, s: seq<nat>)
    ensures Elements([]) == {} && Versions({}) == {}
    ensures s == [] && Elements(s) == Versions(names) ==> Next(names) == 1
  {}

  lemma LastIsHighest(s: seq<nat>)
    requires s != []
    ensures Sort(s) != [] && Sort(s)[|Sort(s)| - 1] == Highest(Elements(s))
  {
    var r := Sort(s);
    SortSorts(s);
    hide Sort;
    assert |multiset(r)| == |multiset(s)|;
    assert forall v :: v in r <==> v in multiset(r);
    assert forall v :: v in s <==> v in multiset(s);
    var all := Elements(s);
    assert r[|r| - 1] in all;
    assert Highest(all) in r;
  }

  datatype Result = Created(path: string) | NoUsableCharacters | FileExists

  /** The directory and the answer after one create. */
  ghost function Create(names: set<string>, name: string): (set<string>, Result) {
    var path := FileName(Next(names), Slug(name));
    if Slug(name) == "" then (names, NoUsableCharacters)
    else if path in names then (names, FileExists)
    else (names + {path}, Created(path))
  }

  class MigrationsDir {
    var names: set<string>

    constructor (names: set<string>)
      ensures this.names == names
    {
      this.names := names;
    }

    /** One greater than the last of the sorted versions, or 1 when there are none. */
    method NextVersion() returns (next: int)
      ensures next == Next(names)
    {
      hide Versions, VersionOf, Elements, Sort;
      var versions: seq<nat> := [];
      var entries := names;
      NoElements(names, versions);
      assert names - entries == {};
      while entries != {}
        invariant entries <= names
        invariant Elements(versions) == Versions(names - entries)
        decreases entries
      {
        var name :| name in entries;
        ghost var seen := names - entries;
        entries := entries - {name};
        assert names - entries == seen + {name};
        VersionsOfOneMore(seen, name);
        if VersionOf(name).Some? {
          ElementsOfOneMore(versions, VersionOf(name).value);
          versions := versions + [VersionOf(name).value];
        }
      }
      assert names - entries == names;
      NoElements(names, versions);
      if |versions| == 0 {
        return 1;
      }
      LastIsHighest(versions);
      var sorted := Sort(versions);
      next := Wrap(sorted[|sorted| - 1] + 1);
    }

    /** Never overwrites: the file is created exclusively. */
    method CreateMigration(name: string) returns (result: Result)
      modifies this
      ensures (names, result) == Create(old(names), name)
    {
      var slug := Slug(name);
      if slug == "" {
        return NoUsableCharacters;
      }
      var next := NextVersion();
      var path := FileName(next, slug);
      if path in names {
        return FileExists;
      }
      names := names + {path};
      result := Created(path);
    }
  }

  lemma VersionsOfOneMore(names: set<string>, name: string)
    ensures Versions(names + {name})
      == Versions(names) + if VersionOf(name).Some? then {VersionOf(name).value} else {}
  {}

  /** Main result: the next version is above every existing one exactly when none of them is
      the largest integer there is; otherwise it wraps around to a negative number. */
  lemma NextIsNewIff(names: set<string>)
    ensures (forall v | v in Versions(names) :: v < Next(names)) <==> 0x7fff_ffff_ffff_ffff !in Versions(names)
    ensures 0x7fff_ffff_ffff_ffff in Versions(names) ==> Next(names) == -0x8000_0000_0000_0000
    ensures Versions(names) == {} ==> Next(names) == 1
  {
    var h := Highest(Versions(names));
    VersionsAreInts(names);
    if MAX_INT in Versions(names) {
      assert h == MAX_INT;
    }
  }

  lemma VersionsAreInts(names: set<string>)
    ensures forall v | v in Versions(names) :: v <= MAX_INT
    ensures Highest(Versions(names)) <= MAX_INT
  {}

  lemma ListedIsAtMostHighest(names: set<string>)
    ensures forall name | name in names && VersionOf(name).Some? :: VersionOf(name).value <= Highest(Versions(names))
  {
    hide VersionOf;
    assert forall name | name in names && VersionOf(name).Some? :: VersionOf(name).value in Versions(names);
  }

  /** With a version to spare, creating fails only for a name without usable characters. */
  lemma CreateSucceeds(names: set<string>, name: string)
    requires Highest(Versions(names)) < MAX_INT
    ensures var (names', result) := Create(names, name);
      if Slug(name) == "" then names' == names && result == NoUsableCharacters
      else
        && result.Created? && result.path !in names && names' == names + {result.path}
        && VersionOf(result.path) == Some(Highest(Versions(names)) + 1)
        && Highest(Versions(names')) == Highest(Versions(names)) + 1
  {
    var h := Highest(Versions(names));
    var path := FileName(h + 1, Slug(name));
    VersionRoundTrip(h + 1, Slug(name));
    hide FileName, VersionOf, Slug, Highest, Versions;
    ListedIsAtMostHighest(names);
    VersionsOfOneMore(names, path);
    HighestOfOneMore(Versions(names), h + 1);
  }

  /** Main result: creating adds one new file or changes nothing. It meets an existing file exactly
      when the versions have run out and the name they wrap to is taken. */
  lemma CreateNeverOverwrites(names: set<string>, name: string)
    ensures var (names', result) := Create(names, name);
      var wrapped := FileName(-0x8000_0000_0000_0000, Slug(name));
      && (result == NoUsableCharacters <==> Slug(name) == "")
      && (result == FileExists <==> Slug(name) != "" && 0x7fff_ffff_ffff_ffff in Versions(names) && wrapped in names)
      && (result.Created? ==> result.path !in names && names' == names + {result.path})
      && (!result.Created? ==> names' == names)
  {
    NextIsNewIff(names);
    VersionsAreInts(names);
    if Highest(Versions(names)) < MAX_INT {
      CreateSucceeds(names, name);
      hide FileName, VersionOf, Slug, Highest, Versions;
    } else {
      hide FileName, VersionOf, Slug;
    }
  }

  lemma HighestOfOneMore(versions: set<nat>, v: nat)
    requires v > Highest(versions)
    ensures Highest(versions + {v}) == v
  {
    assert v in versions + {v};
  }

  // Any number of creates.

  ghost function After(names: set<string>, requests: seq<string>, n: nat): set<string>
    requires n <= |requests|
  {
    if n == 0 then names else Create(After(names, requests, n - 1), requests[n - 1]).0
  }

  /** How many of the first requests have a usable name. */
  function Slugged(requests: seq<string>, n: nat): nat
    requires n <= |requests|
  {
    if n == 0 then 0 else Slugged(requests, n - 1) + if Slug(requests[n - 1]) == "" then 0 else 1
  }

  lemma {:induction false} HighestAfter(names: set<string>, requests: seq<string>, n: nat)
    requires n <= |requests| && Highest(Versions(names)) + |requests| <= MAX_INT
    ensures Highest(Versions(After(names, requests, n))) == Highest(Versions(names)) + Slugged(requests, n)
    ensures Slugged(requests, n) <= n
  {
    hide Versions, Slug, Create;
    if n > 0 {
      HighestAfter(names, requests, n - 1);
      CreateSucceeds(After(names, requests, n - 1), requests[n - 1]);
    }
  }

  /** Main result: however many migrations are created, the one for the i-th usable name gets
      the i-th version above all that were there, so versions strictly increase. */
  lemma RepeatedCreatesIncrease(names: set<string>, requests: seq<string>, i: nat)
    requires i < |requests| && Slug(requests[i]) != "" && Highest(Versions(names)) + |requests| <= MAX_INT
    ensures var result := Create(After(names, requests, i), requests[i]).1;
      && result.Created? && result.path !in After(names, requests, i)
      && VersionOf(result.path) == Some(Highest(Versions(names)) + Slugged(requests, i + 1))
      && Slugged(requests, i + 1) == Slugged(requests, i) + 1
  {
    hide Versions, Slug, Create, VersionOf;
    HighestAfter(names, requests, i);
    CreateSucceeds(After(names, requests, i), requests[i]);
  }
}
