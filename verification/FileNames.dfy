/**
 Names of migration files: the unanchored expression ([0-9]+)_.*\.(up|down)\.sql under
 leftmost, greedy matching, where a dot does not match a newline.
 */
module FileNames {
  import opened Common

  datatype Migration = Migration(pos: uint64, up: bool, name: string)

  predicate IsDigit(c: char) {
    '0' <= c <= '9'
  }

  predicate AllDigits(s: string) {
    forall i :: 0 <= i < |s| ==> IsDigit(s[i])
  }

  predicate DigitsBetween(name: string, i: nat, j: nat)
    requires j <= |name|
  {
    forall k :: i <= k < j ==> IsDigit(name[k])
  }

  predicate OneLineBetween(name: string, i: nat, j: nat) {
    forall k :: i <= k < j && k < |name| ==> name[k] != '\n'
  }

  function Ending(up: bool): string {
    if up then ".up.sql" else ".down.sql"
  }

  predicate HasAt(name: string, i: nat, word: string) {
    i + |word| <= |name| && name[i..i + |word|] == word
  }

  /** One way to match: digits in [start, mid), an underscore at mid, an ending at `end`. */
  datatype Match = Match(start: nat, mid: nat, end: nat, up: bool)

  predicate IsMatch(name: string, x: Match) {
    && x.start < x.mid < x.end
    && x.mid < |name|
    && DigitsBetween(name, x.start, x.mid)
    && name[x.mid] == '_'
    && OneLineBetween(name, x.mid + 1, x.end)
    && HasAt(name, x.end, Ending(x.up))
  }

  /** Leftmost first, then the longest `.*`. */
  predicate Precedes(x: Match, y: Match) {
    x.start < y.start || (x.start == y.start && x.mid == y.mid && y.end <= x.end)
  }

  /** The match the regular expression engine picks. */
  ghost predicate IsChosen(name: string, x: Match) {
    IsMatch(name, x) && forall y: Match :: IsMatch(name, y) ==> Precedes(x, y)
  }

  function DigitsEnd(name: string, i: nat): (e: nat)
    requires i <= |name|
    ensures i <= e <= |name| && DigitsBetween(name, i, e)
    ensures e < |name| ==> !IsDigit(name[e])
    decreases |name| - i
  {
    if i < |name| && IsDigit(name[i]) then DigitsEnd(name, i + 1) else i
  }

  /** The last ending at or after i that `.*` can reach from i. */
  function LastEnding(name: string, i: nat): (r: Option<(nat, bool)>)
    requires i <= |name|
    ensures r.Some? ==> i <= r.value.0 && HasAt(name, r.value.0, Ending(r.value.1)) && OneLineBetween(name, i, r.value.0)
    decreases |name| - i
  {
    if i == |name| then None
    else
      var later := if name[i] == '\n' then None else LastEnding(name, i + 1);
      if later.Some? then later
      else if HasAt(name, i, Ending(true)) then Some((i, true))
      else if HasAt(name, i, Ending(false)) then Some((i, false))
      else None
  }

  lemma {:induction false} LastEndingIsLast(name: string, i: nat, j: nat, up: bool)
    requires i <= |name| && i <= j && HasAt(name, j, Ending(up)) && OneLineBetween(name, i, j)
    ensures LastEnding(name, i).Some? && j <= LastEnding(name, i).value.0
    decreases |name| - i
  {
    if i < j {
      LastEndingIsLast(name, i + 1, j, up);
    }
  }

  /** The greedy match that starts at i, if any. */
  function MatchFrom(name: string, i: nat): (r: Option<Match>)
    requires i <= |name|
    ensures r.Some? ==> i == r.value.start
  {
    var e := DigitsEnd(name, i);
    if i < e < |name| && name[e] == '_' && LastEnding(name, e + 1).Some? then
      var (end, up) := LastEnding(name, e + 1).value;
      Some(Match(i, e, end, up))
    else None
  }

  function FindMatch(name: string, i: nat): Option<Match>
    requires i <= |name|
    decreases |name| - i
  {
    if MatchFrom(name, i).Some? then MatchFrom(name, i)
    else if i == |name| then None
    else FindMatch(name, i + 1)
  }

  lemma MatchEndsAtDigits(name: string, x: Match)
    requires IsMatch(name, x)
    ensures DigitsEnd(name, x.start) == x.mid
  {
  }

  lemma MatchFromIsGreedy(name: string, y: Match)
    requires IsMatch(name, y)
    ensures MatchFrom(name, y.start).Some? && Precedes(MatchFrom(name, y.start).value, y)
  {
    MatchEndsAtDigits(name, y);
    LastEndingIsLast(name, y.mid + 1, y.end, y.up);
  }

  /** Whatever the search finds is a match. */
  lemma {:induction false} FindMatchIsMatch(name: string, i: nat)
    requires i <= |name| && FindMatch(name, i).Some?
    ensures i <= FindMatch(name, i).value.start && IsMatch(name, FindMatch(name, i).value)
    decreases |name| - i
  {
    if MatchFrom(name, i).None? {
      FindMatchIsMatch(name, i + 1);
    } else {
      var x := MatchFrom(name, i).value;
      assert LastEnding(name, x.mid + 1) == Some((x.end, x.up));
    }
  }

  /** The search finds a match if there is one, and the one it finds precedes all others. */
  lemma {:induction false} FindMatchIsLeftmostGreedy(name: string, i: nat, y: Match)
    requires i <= y.start <= |name| && MatchFrom(name, y.start).Some? && Precedes(MatchFrom(name, y.start).value, y)
    ensures FindMatch(name, i).Some? && Precedes(FindMatch(name, i).value, y)
    decreases |name| - i
  {
    if MatchFrom(name, i).None? {
      FindMatchIsLeftmostGreedy(name, i + 1, y);
    }
  }

  lemma FindMatchIsChosen(name: string, x: Match)
    requires IsMatch(name, x)
    ensures FindMatch(name, 0).Some? && IsChosen(name, FindMatch(name, 0).value)
  {
    forall y: Match | IsMatch(name, y)
      ensures FindMatch(name, 0).Some? && Precedes(FindMatch(name, 0).value, y)
    {
      MatchFromIsGreedy(name, y);
      FindMatchIsLeftmostGreedy(name, 0, y);
    }
    FindMatchIsMatch(name, 0);
  }

  /** The number a string of digits denotes. */
  function Value(digits: string): nat
    requires AllDigits(digits)
  {
    if digits == [] then 0
    else Value(digits[..|digits| - 1]) * 10 + (digits[|digits| - 1] as int - '0' as int)
  }

  function ParseMigration(name: string): Option<Migration> {
    match FindMatch(name, 0)
    case None => None
    case Some(x) =>
      FindMatchIsMatch(name, 0);
      var pos := Value(name[x.start..x.mid]);
      if TWO64 <= pos || pos == 0 then None
      else Some(Migration(pos, x.up, name))
  }

  lemma ChoiceIsUnique(name: string, x: Match, y: Match)
    requires IsChosen(name, x) && IsChosen(name, y)
    ensures x == y
  {
    assert name[x.end + 1] == name[x.end..x.end + |Ending(x.up)|][1];
    assert name[y.end + 1] == name[y.end..y.end + |Ending(y.up)|][1];
  }

  /**
   Parsing succeeds exactly on the names whose chosen match carries a position from 1 to
   2^64 - 1, and returns that position and direction.
   */
  lemma ParseMigrationMeaning(name: string, x: Match)
    requires IsChosen(name, x)
    ensures var pos := Value(name[x.start..x.mid]);
            ParseMigration(name) == if 0 < pos < TWO64 then Some(Migration(pos, x.up, name)) else None
  {
    FindMatchIsChosen(name, x);
    ChoiceIsUnique(name, x, FindMatch(name, 0).value);
  }

  /** A name is a migration only if something in it matches. */
  lemma ParseMigrationRejects(name: string)
    ensures ParseMigration(name).Some? ==> exists x: Match :: IsChosen(name, x)
  {
    if FindMatch(name, 0).Some? {
      FindMatchIsMatch(name, 0);
      FindMatchIsChosen(name, FindMatch(name, 0).value);
    }
  }

  /** One of the ten digits of the character class [0-9]. */
  lemma DigitsAreTen(c: char)
    ensures IsDigit(c) <==> c in "0123456789"
  {
    var ten := "0123456789";
    assert ten[0] == '0' && ten[1] == '1' && ten[2] == '2' && ten[3] == '3' && ten[4] == '4';
    assert ten[5] == '5' && ten[6] == '6' && ten[7] == '7' && ten[8] == '8' && ten[9] == '9';
    if IsDigit(c) {
      assert ten[c as int - '0' as int] == c;
    }
  }

  /** The regular expression written out: some text, digits, an underscore, a title on one line, an ending, the rest. */
  ghost predicate WrittenOut(name: string, before: string, digits: string, title: string, up: bool, after: string) {
    && name == before + digits + "_" + title + (if up then ".up.sql" else ".down.sql") + after
    && digits != [] && (forall c :: c in digits ==> c in "0123456789")
    && '\n' !in title
  }

  lemma Pieces(name: string, a: nat, b: nat, c: nat, d: nat)
    requires a <= b < c <= d <= |name|
    ensures name == name[..a] + name[a..b] + [name[b]] + name[b + 1..c] + name[c..d] + name[d..]
  {
    assert name == name[..a] + name[a..];
    assert name[a..] == name[a..b] + [name[b]] + name[b + 1..];
    assert name[b + 1..] == name[b + 1..c] + name[c..d] + name[d..];
  }

  lemma DigitsAreWritten(name: string, i: nat, j: nat)
    requires i <= j <= |name| && DigitsBetween(name, i, j)
    ensures forall c :: c in name[i..j] ==> c in "0123456789"
  {
    forall c | c in name[i..j]
      ensures c in "0123456789"
    {
      var k :| i <= k < j && name[k] == c;
      DigitsAreTen(c);
    }
  }

  lemma MatchIsWrittenOut(name: string, x: Match)
    requires IsMatch(name, x)
    ensures WrittenOut(name, name[..x.start], name[x.start..x.mid], name[x.mid + 1..x.end], x.up,
                       name[x.end + |Ending(x.up)|..])
  {
    var d := x.end + |Ending(x.up)|;
    Pieces(name, x.start, x.mid, x.end, d);
    DigitsAreWritten(name, x.start, x.mid);
    assert name[x.end..d] == Ending(x.up);
    assert [name[x.mid]] == "_";
  }

  lemma WrittenOutIsMatch(name: string, before: string, digits: string, title: string, up: bool, after: string)
    requires WrittenOut(name, before, digits, title, up, after)
    ensures IsMatch(name, Match(|before|, |before| + |digits|, |before| + |digits| + 1 + |title|, up))
  {
    var mid, end := |before| + |digits|, |before| + |digits| + 1 + |title|;
    var ending := if up then ".up.sql" else ".down.sql";
    forall k | |before| <= k < mid
      ensures IsDigit(name[k])
    {
      assert name[k] == digits[k - |before|] && digits[k - |before|] in digits;
      DigitsAreTen(name[k]);
    }
    forall k | mid + 1 <= k < end
      ensures name[k] != '\n'
    {
      assert name[k] == title[k - mid - 1];
    }
    assert name[end..end + |ending|] == ending;
  }

  /** The regular expression describes the name. */
  ghost predicate Described(name: string) {
    exists before, digits, title, up, after :: WrittenOut(name, before, digits, title, up, after)
  }

  lemma WrittenOutIsDescribed(name: string, before: string, digits: string, title: string, up: bool, after: string)
    requires WrittenOut(name, before, digits, title, up, after)
    ensures Described(name)
  {
  }

  lemma WrittenOutIsFound(name: string, before: string, digits: string, title: string, up: bool, after: string)
    requires WrittenOut(name, before, digits, title, up, after)
    ensures FindMatch(name, 0).Some?
  {
    WrittenOutIsMatch(name, before, digits, title, up, after);
    FindMatchIsChosen(name, Match(|before|, |before| + |digits|, |before| + |digits| + 1 + |title|, up));
  }

  /** The search succeeds exactly on the names that the regular expression describes. */
  lemma FoundIffDescribed(name: string)
    ensures FindMatch(name, 0).Some? <==> Described(name)
  {
    if FindMatch(name, 0).Some? {
      FindMatchIsMatch(name, 0);
      var x := FindMatch(name, 0).value;
      MatchIsWrittenOut(name, x);
      WrittenOutIsDescribed(name, name[..x.start], name[x.start..x.mid], name[x.mid + 1..x.end], x.up,
                            name[x.end + |Ending(x.up)|..]);
    }
    if Described(name) {
      var before, digits, title, up, after :| WrittenOut(name, before, digits, title, up, after);
      WrittenOutIsFound(name, before, digits, title, up, after);
    }
  }

  /** Decimal notation without leading zeros, for positive numbers. */
  function Decimal(n: nat): string {
    if n == 0 then [] else Decimal(n / 10) + [('0' as int + n % 10) as char]
  }

  function Zeros(n: nat): string {
    if n == 0 then [] else Zeros(n - 1) + ['0']
  }

  lemma {:induction false} ZerosValue(n: nat)
    ensures AllDigits(Zeros(n)) && Value(Zeros(n)) == 0
  {
    if n > 0 {
      ZerosValue(n - 1);
      assert Zeros(n)[..|Zeros(n)| - 1] == Zeros(n - 1);
    }
  }

  lemma ValueOfLonger(digits: string, digit: nat)
    requires AllDigits(digits) && digit < 10
    ensures var longer := digits + [('0' as int + digit) as char];
            AllDigits(longer) && Value(longer) == Value(digits) * 10 + digit
  {
    var longer := digits + [('0' as int + digit) as char];
    assert longer[..|longer| - 1] == digits;
  }

  lemma {:induction false} DecimalValue(padding: nat, n: nat)
    ensures AllDigits(Zeros(padding) + Decimal(n)) && Value(Zeros(padding) + Decimal(n)) == n
  {
    if n == 0 {
      ZerosValue(padding);
      assert Zeros(padding) + Decimal(0) == Zeros(padding);
    } else {
      DecimalValue(padding, n / 10);
      var shorter := Zeros(padding) + Decimal(n / 10);
      ValueOfLonger(shorter, n % 10);
      assert Zeros(padding) + Decimal(n) == shorter + [('0' as int + n % 10) as char];
    }
  }

  lemma NextDigit(n: nat, digit: nat)
    requires digit < 10 && 0 < n
    ensures Decimal(10 * n + digit) == Decimal(n) + [('0' as int + digit) as char]
  {
    assert (10 * n + digit) / 10 == n && (10 * n + digit) % 10 == digit;
  }

  /** Printing and reading numbers uses base ten. */
  lemma BaseTen()
    ensures Decimal(9) == "9" && Decimal(10) == "10" && Value("10") == 10
  {
    assert Decimal(0) == "" && Decimal(1) == "1" && Decimal(9) == "9";
    NextDigit(1, 0);
    DecimalValue(0, 10);
    assert Zeros(0) + Decimal(10) == "10";
  }

  /** digits_title.direction.sql */
  function FileName(digits: string, title: string, up: bool): string {
    digits + "_" + title + Ending(up)
  }

  lemma FileNameParts(digits: string, title: string, up: bool)
    requires digits != [] && AllDigits(digits) && '\n' !in title
    ensures var name := FileName(digits, title, up);
            var x := Match(0, |digits|, |digits| + 1 + |title|, up);
            IsMatch(name, x) && name[x.start..x.mid] == digits && name[x.end..] == Ending(up)
  {
    var name := FileName(digits, title, up);
    var mid, end := |digits|, |digits| + 1 + |title|;
    assert name[0..mid] == digits && name[end..] == Ending(up);
    assert forall k :: 0 <= k < mid ==> name[k] == digits[k];
    assert forall k :: mid < k < end ==> name[k] == title[k - mid - 1];
  }

  /** No ending starts inside a final ending. */
  lemma NoLaterEnding(name: string, i: nat, up: bool, j: nat, other: bool)
    requires i <= |name| && name[i..] == Ending(up)
    requires HasAt(name, j, Ending(other))
    ensures j <= i
  {
    assert name[j] == name[j..j + |Ending(other)|][0] == '.';
    assert |name| == i + |Ending(up)|;
    assert forall k :: i <= k < |name| ==> name[k] == Ending(up)[k - i];
  }

  /**
   Printing and parsing: every position from 1 to 2^64 - 1, any zero padding, any title
   without a newline, even one that itself contains an ending, and either direction.
   */
  lemma FileNameRoundTrip(padding: nat, pos: uint64, title: string, up: bool)
    requires 0 < pos && '\n' !in title
    ensures var name := Zeros(padding) + Decimal(pos) + "_" + title + (if up then ".up.sql" else ".down.sql");
            ParseMigration(name) == Some(Migration(pos, up, name))
  {
    PrintedNameParses(padding, pos, title, up);
  }

  lemma PrintedNameParses(padding: nat, pos: uint64, title: string, up: bool)
    requires 0 < pos && '\n' !in title
    ensures var name := FileName(Zeros(padding) + Decimal(pos), title, up);
            ParseMigration(name) == Some(Migration(pos, up, name))
  {
    var digits := Zeros(padding) + Decimal(pos);
    var name := FileName(digits, title, up);
    var x := Match(0, |digits|, |digits| + 1 + |title|, up);
    DecimalValue(padding, pos);
    FileNameParts(digits, title, up);
    forall y: Match | IsMatch(name, y)
      ensures Precedes(x, y)
    {
      NoLaterEnding(name, x.end, up, y.end, y.up);
      MatchEndsAtDigits(name, x);
      MatchEndsAtDigits(name, y);
    }
    ParseMigrationMeaning(name, x);
  }
}
