/** `getConfigPath`: finding and removing the file flag among command line arguments. */
module ConfigFlags {
  import opened Common

  predicate HasPrefix(s: string, prefix: string) {
    |prefix| <= |s| && s[..|prefix|] == prefix
  }

  function IndexOfEquals(s: string, i: nat): (r: nat)
    requires i <= |s|
    ensures i <= r <= |s|
    ensures r < |s| ==> s[r] == '='
    ensures forall k :: i <= k < r ==> s[k] != '='
    decreases |s| - i
  {
    if i == |s| || s[i] == '=' then i else IndexOfEquals(s, i + 1)
  }

  /** What one argument is by itself: no file flag, one that takes the next argument, or one with a value. */
  datatype Shape = Plain | Separate | Inline(value: string)

  function ShapeOfFlag(body: string): Shape {
    var e := IndexOfEquals(body, 0);
    if body[..e] != "f" && body[..e] != "file" then Plain
    else if e == |body| then Separate
    else Inline(body[e + 1..])
  }

  function ShapeOf(arg: string): Shape {
    if HasPrefix(arg, "--") then ShapeOfFlag(arg[2..])
    else if HasPrefix(arg, "-") then ShapeOfFlag(arg[1..])
    else Plain
  }

  /** An argument, its shape, and whether it begins with a dash. */
  datatype Token = Token(text: string, shape: Shape, dashed: bool)

  function TokenOf(arg: string): (t: Token)
    ensures t.text == arg
    ensures !t.dashed ==> t.shape.Plain?
  {
    assert HasPrefix(arg, "--") ==> arg[..1] == arg[..2][..1];
    Token(arg, ShapeOf(arg), HasPrefix(arg, "-"))
  }

  /** Arguments are examined one by one; the scan works for any such examination. */
  type Lexer = string -> Token

  ghost predicate IsLexer(lex: Lexer) {
    forall arg :: lex(arg).text == arg && (!lex(arg).dashed ==> lex(arg).shape.Plain?)
  }

  function TokensBy(lex: Lexer, args: seq<string>): (ts: seq<Token>)
    ensures |ts| == |args| && forall i :: 0 <= i < |ts| ==> ts[i] == lex(args[i])
  {
    seq(|args|, i requires 0 <= i < |args| => lex(args[i]))
  }

  function Tokens(args: seq<string>): (ts: seq<Token>)
    ensures |ts| == |args|
  {
    TokensBy(TokenOf, args)
  }

  predicate ValueFollows(ts: seq<Token>, i: nat) {
    i + 1 < |ts| && !ts[i + 1].dashed
  }

  /** Each of the first n that needs the next argument has one that does not look like a flag. */
  predicate WellFormed(ts: seq<Token>, n: nat)
    requires n <= |ts|
  {
    forall i :: 0 <= i < n && ts[i].shape.Separate? ==> ValueFollows(ts, i)
  }

  predicate IsFlag(t: Token) {
    !t.shape.Plain?
  }

  function ValueAt(ts: seq<Token>, i: nat): string
    requires i < |ts| && IsFlag(ts[i]) && (ts[i].shape.Separate? ==> ValueFollows(ts, i))
  {
    if ts[i].shape.Separate? then ts[i + 1].text else ts[i].shape.value
  }

  /** Every file flag but the last has an empty value: "at most once" ignores empty values. */
  predicate AtMostOnePath(ts: seq<Token>, n: nat)
    requires n <= |ts| && WellFormed(ts, n)
  {
    forall i, j :: 0 <= i < j < n && IsFlag(ts[i]) && IsFlag(ts[j]) ==> ValueAt(ts, i) == ""
  }

  predicate Accepted(ts: seq<Token>) {
    WellFormed(ts, |ts|) && AtMostOnePath(ts, |ts|)
  }

  /** The value of the last file flag among the first n arguments. */
  function PathOf(ts: seq<Token>, n: nat): string
    requires n <= |ts| && WellFormed(ts, n)
  {
    if n == 0 then ""
    else if IsFlag(ts[n - 1]) then ValueAt(ts, n - 1)
    else PathOf(ts, n - 1)
  }

  /** The argument at i is the value of the flag before it. */
  predicate ConsumedAt(ts: seq<Token>, i: nat)
    requires i < |ts|
  {
    i > 0 && ts[i - 1].shape.Separate?
  }

  /** The first n arguments without file flags and their values. */
  function Remaining(ts: seq<Token>, n: nat): seq<string>
    requires n <= |ts|
  {
    if n == 0 then []
    else if IsFlag(ts[n - 1]) || ConsumedAt(ts, n - 1) then Remaining(ts, n - 1)
    else Remaining(ts, n - 1) + [ts[n - 1].text]
  }

  datatype ConfigError = MultipleFileFlags | NoValue

  lemma {:induction false} EmptyPathMeansEmptyFlags(ts: seq<Token>, n: nat, i: nat)
    requires i < n <= |ts| && WellFormed(ts, n) && AtMostOnePath(ts, n)
    requires PathOf(ts, n) == "" && IsFlag(ts[i])
    ensures ValueAt(ts, i) == ""
  {
    if !IsFlag(ts[n - 1]) {
      EmptyPathMeansEmptyFlags(ts, n - 1, i);
    }
  }

  lemma {:induction false} PathComesFromAFlag(ts: seq<Token>, n: nat) returns (i: nat)
    requires n <= |ts| && WellFormed(ts, n) && PathOf(ts, n) != ""
    ensures i < n && IsFlag(ts[i]) && ValueAt(ts, i) == PathOf(ts, n)
  {
    if IsFlag(ts[n - 1]) {
      i := n - 1;
    } else {
      i := PathComesFromAFlag(ts, n - 1);
    }
  }

  /** What is known before the argument at i is examined. */
  ghost predicate Scanned(ts: seq<Token>, i: nat, path: string, newArgs: seq<string>) {
    && i <= |ts|
    && (i < |ts| ==> !ConsumedAt(ts, i))
    && WellFormed(ts, i) && AtMostOnePath(ts, i)
    && path == PathOf(ts, i) && newArgs == Remaining(ts, i)
  }

  /**
   The scan stops with an error at the flag i: everything before it was acceptable and is
   what is returned, and either a path was already found or this flag lacks its value.
   */
  ghost predicate StopsAt(ts: seq<Token>, i: nat, path: string, newArgs: seq<string>, err: ConfigError) {
    && Scanned(ts, i, path, newArgs) && i < |ts| && IsFlag(ts[i])
    && if path != "" then err == MultipleFileFlags
       else err == NoValue && ts[i].shape.Separate? && !ValueFollows(ts, i)
  }

  lemma ScanPlain(ts: seq<Token>, i: nat, path: string, newArgs: seq<string>)
    requires Scanned(ts, i, path, newArgs) && i < |ts| && !IsFlag(ts[i])
    ensures Scanned(ts, i + 1, path, newArgs + [ts[i].text])
  {
  }

  lemma ScanFlag(ts: seq<Token>, i: nat, newArgs: seq<string>)
    requires Scanned(ts, i, "", newArgs) && i < |ts| && IsFlag(ts[i])
    requires ts[i].shape.Separate? ==> ValueFollows(ts, i)
    ensures WellFormed(ts, i + 1) && AtMostOnePath(ts, i + 1)
    ensures PathOf(ts, i + 1) == ValueAt(ts, i) && Remaining(ts, i + 1) == newArgs
  {
    forall k | 0 <= k < i && IsFlag(ts[k])
      ensures ValueAt(ts, k) == ""
    {
      EmptyPathMeansEmptyFlags(ts, i, k);
    }
  }

  lemma ScanInline(ts: seq<Token>, i: nat, newArgs: seq<string>)
    requires Scanned(ts, i, "", newArgs) && i < |ts| && ts[i].shape.Inline?
    ensures Scanned(ts, i + 1, ts[i].shape.value, newArgs)
  {
    ScanFlag(ts, i, newArgs);
  }

  lemma ScanSeparate(ts: seq<Token>, i: nat, newArgs: seq<string>)
    requires Scanned(ts, i, "", newArgs) && i < |ts| && ts[i].shape.Separate?
    requires ValueFollows(ts, i) && !IsFlag(ts[i + 1])
    ensures Scanned(ts, i + 2, ts[i + 1].text, newArgs)
  {
    ScanFlag(ts, i, newArgs);
  }

  /** The loop over the arguments, with one argument of lookahead. */
  method Scan(lex: Lexer, args: seq<string>) returns (path: string, newArgs: seq<string>, err: Option<ConfigError>)
    requires IsLexer(lex)
    ensures var ts := TokensBy(lex, args);
            && (err.None? <==> Accepted(ts))
            && (err.None? ==> path == PathOf(ts, |ts|) && newArgs == Remaining(ts, |ts|))
            && (err.Some? ==> exists i :: StopsAt(ts, i, path, newArgs, err.value))
  {
    ghost var ts := TokensBy(lex, args);
    newArgs, path, err := [], "", None;
    var i := 0;
    while i < |args|
      invariant Scanned(ts, i, path, newArgs) && err.None?
    {
      var token := lex(args[i]);
      if token.shape.Plain? {
        ScanPlain(ts, i, path, newArgs);
        newArgs := newArgs + [args[i]];
        i := i + 1;
        continue;
      }
      if path != "" {
        ghost var k := PathComesFromAFlag(ts, i);
        assert StopsAt(ts, i, path, newArgs, MultipleFileFlags);
        return path, newArgs, Some(MultipleFileFlags);
      }
      if token.shape.Separate? {
        if i + 1 >= |args| || lex(args[i + 1]).dashed {
          assert StopsAt(ts, i, path, newArgs, NoValue);
          return path, newArgs, Some(NoValue);
        }
        ScanSeparate(ts, i, newArgs);
        path := args[i + 1];
        i := i + 2;
        continue;
      }
      ScanInline(ts, i, newArgs);
      path := token.shape.value;
      i := i + 1;
    }
  }

  /**
   The scan succeeds exactly on accepted arguments, and then returns the value of the
   last file flag and the arguments without flags and consumed values, in order. An error
   comes from the first flag that cannot be accepted, with what was scanned before it.
   */
  method GetConfigPath(args: seq<string>) returns (path: string, newArgs: seq<string>, err: Option<ConfigError>)
    ensures var ts := Tokens(args);
            && (err.None? <==> Accepted(ts))
            && (err.None? ==> path == PathOf(ts, |ts|) && newArgs == Remaining(ts, |ts|))
            && (err.Some? ==> exists i :: StopsAt(ts, i, path, newArgs, err.value))
  {
    path, newArgs, err := Scan(TokenOf, args);
  }

  ghost predicate FlagFree(ts: seq<Token>) {
    forall i :: 0 <= i < |ts| ==> !IsFlag(ts[i])
  }

  /** From index i on stand the arguments xs, none of which is a flag. */
  ghost predicate PlainRun(ts: seq<Token>, i: nat, xs: seq<string>) {
    && i + |xs| <= |ts|
    && forall k :: i <= k < i + |xs| ==> ts[k].text == xs[k - i] && !IsFlag(ts[k])
  }

  /** Arguments that are no flags are passed unchanged. */
  lemma {:induction false} ScanPlains(ts: seq<Token>, i: nat, xs: seq<string>, path: string, newArgs: seq<string>)
    requires Scanned(ts, i, path, newArgs) && PlainRun(ts, i, xs)
    ensures Scanned(ts, i + |xs|, path, newArgs + xs)
    decreases |xs|
  {
    if xs == [] {
      assert newArgs + xs == newArgs;
    } else {
      var front, last := xs[..|xs| - 1], |xs| - 1;
      assert forall k :: i <= k < i + last ==> ts[k].text == xs[k - i] == front[k - i];
      ScanPlains(ts, i, front, path, newArgs);
      ScanPlain(ts, i + last, path, newArgs + front);
      assert newArgs + front + [xs[last]] == newArgs + xs;
    }
  }

  lemma {:induction false} RemainingIsFlagFree(lex: Lexer, ts: seq<Token>, n: nat, rest: seq<Token>)
    requires n <= |ts| && (forall i :: 0 <= i < n ==> ts[i] == lex(ts[i].text))
    requires rest == TokensBy(lex, Remaining(ts, n))
    ensures FlagFree(rest)
  {
    if n > 0 {
      var before := Remaining(ts, n - 1);
      RemainingIsFlagFree(lex, ts, n - 1, TokensBy(lex, before));
    }
  }

  lemma FlagFreeIsKept(lex: Lexer, args: seq<string>, ts: seq<Token>)
    requires IsLexer(lex) && ts == TokensBy(lex, args) && FlagFree(ts)
    ensures Accepted(ts) && PathOf(ts, |ts|) == "" && Remaining(ts, |ts|) == args
  {
    ScanPlains(ts, 0, args, "", []);
    assert [] + args == args;
  }

  /** Scanning the result again finds nothing and changes nothing. */
  lemma SecondScanBy(lex: Lexer, args: seq<string>)
    requires IsLexer(lex)
    ensures var rest := Remaining(TokensBy(lex, args), |args|);
            var ts := TokensBy(lex, rest);
            Accepted(ts) && PathOf(ts, |ts|) == "" && Remaining(ts, |ts|) == rest
  {
    var ts := TokensBy(lex, args);
    var rest := Remaining(ts, |args|);
    RemainingIsFlagFree(lex, ts, |args|, TokensBy(lex, rest));
    FlagFreeIsKept(lex, rest, TokensBy(lex, rest));
  }

  lemma SecondScanIsIdentity(args: seq<string>)
    ensures var rest := Remaining(Tokens(args), |args|);
            var ts := Tokens(rest);
            Accepted(ts) && PathOf(ts, |ts|) == "" && Remaining(ts, |ts|) == rest
  {
    SecondScanBy(TokenOf, args);
  }

  /** The tokens at k are one flag with its value: one argument, or two. */
  predicate FlagWithValue(ts: seq<Token>, k: nat, width: nat, path: string) {
    && 1 <= width <= 2 && k + width <= |ts|
    && if width == 1 then ts[k].shape == Inline(path)
       else ts[k].shape.Separate? && !ts[k + 1].dashed && !IsFlag(ts[k + 1]) && ts[k + 1].text == path
  }

  /** One flag with its value, and no flag before or after it. */
  lemma FlagIsUndone(ts: seq<Token>, width: nat, path: string, before: seq<string>, after: seq<string>)
    requires |ts| == |before| + width + |after| && FlagWithValue(ts, |before|, width, path)
    requires PlainRun(ts, 0, before) && PlainRun(ts, |before| + width, after)
    ensures Accepted(ts) && PathOf(ts, |ts|) == path && Remaining(ts, |ts|) == before + after
  {
    ScannedUpToFlag(ts, before);
    FlagIsScanned(ts, width, path, before);
    ScannedToEnd(ts, |before| + width, path, before, after);
  }

  lemma ScannedUpToFlag(ts: seq<Token>, before: seq<string>)
    requires PlainRun(ts, 0, before)
    ensures Scanned(ts, |before|, "", before)
  {
    ScanPlains(ts, 0, before, "", []);
    assert [] + before == before;
  }

  lemma ScannedToEnd(ts: seq<Token>, i: nat, path: string, newArgs: seq<string>, after: seq<string>)
    requires Scanned(ts, i, path, newArgs) && PlainRun(ts, i, after) && i + |after| == |ts|
    ensures Accepted(ts) && PathOf(ts, |ts|) == path && Remaining(ts, |ts|) == newArgs + after
  {
    ScanPlains(ts, i, after, path, newArgs);
  }

  lemma FlagIsScanned(ts: seq<Token>, width: nat, path: string, before: seq<string>)
    requires FlagWithValue(ts, |before|, width, path) && Scanned(ts, |before|, "", before)
    ensures Scanned(ts, |before| + width, path, before)
  {
    if width == 1 {
      ScanInline(ts, |before|, before);
    } else {
      ScanSeparate(ts, |before|, before);
    }
  }

  predicate Spelling(dashes: string, name: string) {
    (dashes == "-" || dashes == "--") && (name == "f" || name == "file")
  }

  lemma NameIndex(name: string, path: string)
    requires name == "f" || name == "file"
    ensures ShapeOfFlag(name) == Separate
    ensures ShapeOfFlag(name + "=" + path) == Inline(path)
  {
    var body := name + "=" + path;
    assert IndexOfEquals(name, 0) == |name|;
    assert body[|name|] == '=' && forall i :: 0 <= i < |name| ==> body[i] == name[i];
    assert IndexOfEquals(body, 0) == |name|;
    assert body[..|name|] == name && body[|name| + 1..] == path;
  }

  lemma BareSpelling(dashes: string, name: string)
    requires Spelling(dashes, name)
    ensures ShapeOf(dashes + name) == Separate
  {
    NameIndex(name, "");
    Dashed(dashes, name);
  }

  lemma InlineSpelling(dashes: string, name: string, path: string)
    requires Spelling(dashes, name)
    ensures ShapeOf(dashes + (name + "=" + path)) == Inline(path)
  {
    NameIndex(name, path);
    Dashed(dashes, name + "=" + path);
  }

  /** Both names with one or two dashes are file flags, with or without a value. */
  lemma Spellings(dashes: string, name: string, path: string)
    requires Spelling(dashes, name)
    ensures ShapeOf(dashes + name) == Separate
    ensures ShapeOf(dashes + name + "=" + path) == Inline(path)
  {
    BareSpelling(dashes, name);
    InlineSpelling(dashes, name, path);
    assert dashes + name + "=" + path == dashes + (name + "=" + path);
  }

  predicate SpelledBare(arg: string, dashes: string, name: string) {
    Spelling(dashes, name) && arg == dashes + name
  }

  predicate SpelledInline(arg: string, dashes: string, name: string, value: string) {
    Spelling(dashes, name) && arg == dashes + name + "=" + value
  }

  lemma BodyIsSpelled(body: string)
    ensures ShapeOfFlag(body).Separate? ==> body == "f" || body == "file"
    ensures ShapeOfFlag(body).Inline? ==>
              var name := body[..IndexOfEquals(body, 0)];
              (name == "f" || name == "file") && body == name + "=" + ShapeOfFlag(body).value
  {
    var e := IndexOfEquals(body, 0);
    assert e == |body| ==> body[..e] == body;
    assert e < |body| ==> body == body[..e] + [body[e]] + body[e + 1..];
  }

  /** The dashes that are cut off before an argument is compared with the names. */
  function DashesOf(arg: string): (dashes: string)
    ensures |dashes| <= |arg| && arg == dashes + arg[|dashes|..]
  {
    if HasPrefix(arg, "--") then "--" else if HasPrefix(arg, "-") then "-" else ""
  }

  lemma ShapeOfBody(arg: string)
    requires !ShapeOf(arg).Plain?
    ensures var dashes := DashesOf(arg);
            (dashes == "-" || dashes == "--") && ShapeOf(arg) == ShapeOfFlag(arg[|dashes|..])
  {
  }

  lemma SeparateIsSpelled(arg: string)
    requires ShapeOf(arg).Separate?
    ensures exists dashes, name :: SpelledBare(arg, dashes, name)
  {
    var dashes := DashesOf(arg);
    ShapeOfBody(arg);
    BodyIsSpelled(arg[|dashes|..]);
    assert SpelledBare(arg, dashes, arg[|dashes|..]);
  }

  lemma InlineIsSpelled(arg: string)
    requires ShapeOf(arg).Inline?
    ensures exists dashes, name :: SpelledInline(arg, dashes, name, ShapeOf(arg).value)
  {
    var dashes, value := DashesOf(arg), ShapeOf(arg).value;
    var body := arg[|dashes|..];
    var name := body[..IndexOfEquals(body, 0)];
    ShapeOfBody(arg);
    BodyIsSpelled(body);
    assert dashes + name + "=" + value == dashes + (name + "=" + value);
    assert SpelledInline(arg, dashes, name, value);
  }

  /** An argument that is taken for a file flag is one of the spellings, with the value behind the first `=`. */
  lemma ShapeIsSpelled(arg: string)
    ensures ShapeOf(arg).Separate? ==> exists dashes, name :: SpelledBare(arg, dashes, name)
    ensures ShapeOf(arg).Inline? ==> exists dashes, name :: SpelledInline(arg, dashes, name, ShapeOf(arg).value)
  {
    match ShapeOf(arg)
    case Plain =>
    case Separate => SeparateIsSpelled(arg);
    case Inline(_) => InlineIsSpelled(arg);
  }

  /**
   The file flags are exactly the four spellings, bare or with a value in the same argument;
   a dash is what makes an argument unfit to be a separate value.
   */
  lemma FileFlagIff(arg: string, value: string)
    ensures ShapeOf(arg) == Separate <==> exists dashes, name :: SpelledBare(arg, dashes, name)
    ensures ShapeOf(arg) == Inline(value) <==> exists dashes, name :: SpelledInline(arg, dashes, name, value)
    ensures TokenOf(arg) == Token(arg, ShapeOf(arg), arg != "" && arg[0] == '-')
  {
    ShapeIsSpelled(arg);
    if dashes, name :| SpelledBare(arg, dashes, name) {
      Spellings(dashes, name, "");
    }
    if dashes, name :| SpelledInline(arg, dashes, name, value) {
      Spellings(dashes, name, value);
    }
  }

  /** No spelling of the file flag, bare or with a value. */
  ghost predicate NotSpelled(arg: string) {
    && (forall dashes, name :: !SpelledBare(arg, dashes, name))
    && (forall dashes, name, value :: !SpelledInline(arg, dashes, name, value))
  }

  /** Arguments none of which is such a spelling come back unchanged, without a path. */
  lemma OtherArgumentsPass(args: seq<string>)
    requires forall arg :: arg in args ==> NotSpelled(arg)
    ensures var ts := Tokens(args);
            Accepted(ts) && PathOf(ts, |ts|) == "" && Remaining(ts, |ts|) == args
  {
    forall i | 0 <= i < |args|
      ensures !IsFlag(Tokens(args)[i])
    {
      assert NotSpelled(args[i]);
      ShapeIsSpelled(args[i]);
    }
    FlagFreeIsKept(TokenOf, args, Tokens(args));
  }

  lemma TwoInlineFlags(ts: seq<Token>, first: string, second: string)
    requires |ts| == 2 && ts[0].shape == Inline(first) && ts[1].shape == Inline(second)
    ensures Accepted(ts) <==> first == ""
    ensures Accepted(ts) ==> PathOf(ts, 2) == second && Remaining(ts, 2) == []
  {
    assert WellFormed(ts, 2);
    assert ValueAt(ts, 0) == first && ValueAt(ts, 1) == second;
    assert Remaining(ts, 1) == Remaining(ts, 0) == [];
  }

  /** A second file flag is accepted behind an empty one, but not an empty one behind another. */
  lemma EmptyFlagMayRepeat()
    ensures var ts := Tokens(["-f=", "-f=x"]);
            Accepted(ts) && PathOf(ts, |ts|) == "x" && Remaining(ts, |ts|) == []
    ensures !Accepted(Tokens(["-f=x", "-f="]))
  {
    Spellings("-", "f", "");
    Spellings("-", "f", "x");
    assert "-" + "f" + "=" + "" == "-f=" && "-" + "f" + "=" + "x" == "-f=x";
    TwoInlineFlags(Tokens(["-f=", "-f=x"]), "", "x");
    TwoInlineFlags(Tokens(["-f=x", "-f="]), "x", "");
  }

  lemma Dashed(dashes: string, body: string)
    requires dashes == "-" || dashes == "--"
    requires body != [] && body[0] != '-'
    ensures ShapeOf(dashes + body) == ShapeOfFlag(body)
  {
    var arg := dashes + body;
    assert arg[|dashes|..] == body && arg[|dashes|] == body[0];
    assert arg[..|dashes|] == dashes;
    assert dashes == "-" ==> arg[..2][1] == body[0];
  }

  /** Flag-free arguments stay plain around whatever is inserted between them. */
  lemma PlainAround(lex: Lexer, a: seq<string>, inserted: seq<string>, b: seq<string>)
    requires IsLexer(lex) && FlagFree(TokensBy(lex, a + b))
    ensures PlainRun(TokensBy(lex, a + inserted + b), 0, a)
    ensures PlainRun(TokensBy(lex, a + inserted + b), |a| + |inserted|, b)
  {
    var ts, plain := TokensBy(lex, a + inserted + b), TokensBy(lex, a + b);
    forall k | 0 <= k < |a|
      ensures ts[k].text == a[k] && !IsFlag(ts[k])
    {
      assert ts[k] == plain[k];
    }
    forall k | |a| + |inserted| <= k < |a| + |inserted| + |b|
      ensures ts[k].text == b[k - |a| - |inserted|] && !IsFlag(ts[k])
    {
      assert ts[k] == plain[k - |inserted|];
    }
  }

  lemma InsertedBy(lex: Lexer, a: seq<string>, inserted: seq<string>, b: seq<string>, path: string)
    requires IsLexer(lex) && FlagFree(TokensBy(lex, a + b))
    requires || (|inserted| == 1 && lex(inserted[0]).shape == Inline(path))
             || (|inserted| == 2 && inserted[1] == path && lex(inserted[0]).shape.Separate?
                 && !lex(path).dashed && lex(path).shape.Plain?)
    ensures var ts := TokensBy(lex, a + inserted + b);
            Accepted(ts) && PathOf(ts, |ts|) == path && Remaining(ts, |ts|) == a + b
  {
    var ts := TokensBy(lex, a + inserted + b);
    PlainAround(lex, a, inserted, b);
    assert ts[|a|] == lex(inserted[0]);
    assert |inserted| == 2 ==> ts[|a| + 1] == lex(inserted[1]);
    FlagIsUndone(ts, |inserted|, path, a, b);
  }

  /**
   Inserting any spelling of the flag with a value, in one argument or in two, anywhere
   among flag-free arguments is undone exactly; only a separate value may not begin
   with a dash.
   */
  lemma InsertedFlagIsUndone(a: seq<string>, b: seq<string>, dashes: string, name: string, path: string)
    requires FlagFree(Tokens(a + b)) && Spelling(dashes, name)
    ensures var ts := Tokens(a + [dashes + name + "=" + path] + b);
            Accepted(ts) && PathOf(ts, |ts|) == path && Remaining(ts, |ts|) == a + b
    ensures path == "" || path[0] != '-' ==>
              var ts := Tokens(a + [dashes + name, path] + b);
              Accepted(ts) && PathOf(ts, |ts|) == path && Remaining(ts, |ts|) == a + b
  {
    Spellings(dashes, name, path);
    var inline, pair := [dashes + name + "=" + path], [dashes + name, path];
    InsertedBy(TokenOf, a, inline, b, path);
    if !HasPrefix(path, "-") {
      InsertedBy(TokenOf, a, pair, b, path);
    }
  }

  /** A separate flag without a value behind it is rejected, wherever it stands. */
  lemma MissingValueIsRejected(a: seq<string>, b: seq<string>, dashes: string, name: string)
    requires Spelling(dashes, name)
    requires b == [] || (b[0] != "" && b[0][0] == '-')
    ensures !Accepted(Tokens(a + [dashes + name] + b))
  {
    var args := a + [dashes + name] + b;
    var ts := Tokens(args);
    Spellings(dashes, name, "");
    assert ts[|a|] == TokenOf(args[|a|]);
    if b != [] {
      assert ts[|a| + 1] == TokenOf(args[|a| + 1]) && args[|a| + 1] == b[0];
      FileFlagIff(b[0], "");
    }
    assert ts[|a|].shape.Separate? && !ValueFollows(ts, |a|);
  }
}
