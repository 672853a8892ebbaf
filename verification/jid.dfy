/** Parsing and printing of JIDs (packages/wazeko-types/src/jid.ts). */
module Jids {

  import opened Options

  /** The integers JavaScript numbers hold exactly. */
  type SafeInt = n: int | -0x1F_FFFF_FFFF_FFFF <= n <= 0x1F_FFFF_FFFF_FFFF

  datatype Jid = Jid(user: string, server: string, agent: Option<SafeInt>, device: Option<SafeInt>)

  /** `Rounded` is not an exception: there the source goes on with a rounded number. */
  datatype JidError = Empty | BadFormat | Rounded

  // ---------------------------------------------------------------- numbers

  function Digit(d: nat): char
    requires d < 10
  {
    ('0' as int + d) as char
  }

  predicate IsDigit(c: char) { '0' <= c <= '9' }

  /** The decimal digits of a natural number. */
  function Digits(n: nat): string {
    if n < 10 then [Digit(n)] else Digits(n / 10) + [Digit(n % 10)]
  }

  function Decimal(n: int): string {
    if n < 0 then "-" + Digits(-n) else Digits(n)
  }

  function Value(digits: string): nat
    requires forall c :: c in digits ==> IsDigit(c)
  {
    if digits == "" then 0
    else
      var last := digits[|digits| - 1];
      assert last in digits && IsDigit(last);
      10 * Value(digits[..|digits| - 1]) + (last as int - '0' as int)
  }

  /** JavaScript's white space and line terminators. */
  predicate IsSpace(c: char) {
    var u := c as int;
    9 <= u <= 13 || u == 0x20 || u == 0xA0 || u == 0x1680 || 0x2000 <= u <= 0x200A || u == 0x2028 || u == 0x2029
    || u == 0x202F || u == 0x205F || u == 0x3000 || u == 0xFEFF
  }

  function TrimStart(s: string): string {
    if s != "" && IsSpace(s[0]) then TrimStart(s[1..]) else s
  }

  function TrimEnd(s: string): string {
    if s != "" && IsSpace(s[|s| - 1]) then TrimEnd(s[..|s| - 1]) else s
  }

  function Trim(s: string): string { TrimEnd(TrimStart(s)) }

  /** The longest prefix of decimal digits. */
  function DigitPrefix(s: string): (p: string)
    ensures forall c :: c in p ==> IsDigit(c)
  {
    if s != "" && IsDigit(s[0]) then [s[0]] + DigitPrefix(s[1..]) else ""
  }

  /** `parseInt(s, 10)`: `None` is NaN. */
  function ParseInt(s: string): Option<int> {
    var t := TrimStart(s);
    var signed := t != "" && (t[0] == '-' || t[0] == '+');
    var digits := DigitPrefix(if signed then t[1..] else t);
    if digits == "" then None
    else
      var v: int := Value(digits);
      Some(if signed && t[0] == '-' then -v else v)
  }

  // ---------------------------------------------------------------- the parser and the printer

  function IndexOf(s: string, c: char): (i: nat)
    requires c in s
    ensures i < |s| && s[i] == c && c !in s[..i]
  {
    if s[0] == c then 0 else 1 + IndexOf(s[1..], c)
  }

  /** `split` at one character. */
  function Split(s: string, c: char): (parts: seq<string>)
    ensures |parts| >= 1
    ensures c in s ==> |parts| >= 2
    decreases |s|
  {
    if c !in s then [s]
    else
      var i := IndexOf(s, c);
      [s[..i]] + Split(s[i + 1..], c)
  }

  /** A part that may follow a separator: its text before it, and the number behind it. */
  function Numbered(s: string, c: char): (string, Option<int>) {
    if c in s then (Split(s, c)[0], ParseInt(Split(s, c)[1])) else (s, None)
  }

  predicate IsSafe(n: Option<int>) {
    n.Some? ==> -0x1F_FFFF_FFFF_FFFF <= n.value <= 0x1F_FFFF_FFFF_FFFF
  }

  function ToSafe(n: Option<int>): Option<SafeInt>
    requires IsSafe(n)
  {
    match n
    case None => None
    case Some(v) => Some(v)
  }

  function Parse(jid: string): Result<Jid, JidError> {
    var trimmed := Trim(jid);
    if trimmed == "" then Err(Empty)
    else
      var parts := Split(trimmed, '@');
      if |parts| != 2 then Err(BadFormat)
      else
        var (named, device) := Numbered(parts[0], ':');
        var (user, agent) := Numbered(named, '_');
        if IsSafe(agent) && IsSafe(device) then Ok(Jid(user, parts[1], ToSafe(agent), ToSafe(device)))
        else Err(Rounded)
  }

  function Suffix(c: char, n: Option<SafeInt>): string {
    match n
    case None => ""
    case Some(v) => [c] + Decimal(v)
  }

  function Print(j: Jid): string {
    j.user + Suffix('_', j.agent) + Suffix(':', j.device) + "@" + j.server
  }

  /** What a printed JID must look like to be read back. */
  ghost predicate Clean(j: Jid) {
    && '@' !in j.user && ':' !in j.user && '_' !in j.user && '@' !in j.server
    && (j.user != "" ==> !IsSpace(j.user[0]))
    && (j.server != "" ==> !IsSpace(j.server[|j.server| - 1]))
  }

  // ---------------------------------------------------------------- numbers survive

  lemma {:induction false} DigitsValue(n: nat)
    ensures Digits(n) != "" && forall c :: c in Digits(n) ==> IsDigit(c)
    ensures Value(Digits(n)) == n
  {
    if n < 10 {
      assert Digits(n)[..0] == "";
    } else {
      DigitsValue(n / 10);
      assert Digits(n)[..|Digits(n)| - 1] == Digits(n / 10);
    }
  }

  lemma {:induction false} DigitPrefixAll(s: string)
    requires forall c :: c in s ==> IsDigit(c)
    ensures DigitPrefix(s) == s
  {
    if s != "" {
      DigitPrefixAll(s[1..]);
      assert s == [s[0]] + s[1..];
    }
  }

  /** A printed number holds digits and at most a leading minus sign, and reads back. */
  lemma DecimalParses(n: int)
    ensures ParseInt(Decimal(n)) == Some(n)
    ensures forall c :: c in Decimal(n) ==> c == '-' || IsDigit(c)
  {
    hide Digits, Value, DigitPrefix;
    var digits := Digits(if n < 0 then -n else n);
    DigitsValue(if n < 0 then -n else n);
    DigitPrefixAll(digits);
    assert IsDigit(digits[0]);
    if n < 0 { assert Decimal(n)[1..] == digits; }
  }

  // ---------------------------------------------------------------- splitting and trimming

  lemma SplitAt(a: string, c: char, b: string)
    requires c !in a
    ensures Split(a + [c] + b, c) == [a] + Split(b, c)
  {
    var s := a + [c] + b;
    assert s[|a|] == c;
    var i := IndexOf(s, c);
    assert forall k :: 0 <= k < |a| ==> s[k] == a[k];
    forall k | 0 <= k < i ensures s[k] != c { assert s[..i][k] == s[k]; }
    assert i == |a|;
    assert s[..i] == a && s[i + 1..] == b;
  }

  lemma {:induction false} SplitParts(s: string, c: char)
    ensures forall p :: p in Split(s, c) ==> c !in p
    decreases |s|
  {
    if c in s {
      var i := IndexOf(s, c);
      SplitParts(s[i + 1..], c);
    }
  }

  /** Two parts are everything before and after the one separator. */
  lemma SplitTwo(s: string, c: char)
    requires |Split(s, c)| == 2
    ensures s == Split(s, c)[0] + [c] + Split(s, c)[1]
  {
    var i := IndexOf(s, c);
    var rest := s[i + 1..];
    assert c !in rest;
    assert Split(s, c)[1] == rest;
  }

  lemma {:induction false} TrimEndKeeps(s: string)
    ensures TrimEnd(s) <= s
    ensures TrimEnd(s) != "" ==> !IsSpace(TrimEnd(s)[|TrimEnd(s)| - 1])
  {
    if s != "" && IsSpace(s[|s| - 1]) { TrimEndKeeps(s[..|s| - 1]); }
  }

  lemma {:induction false} TrimStartKeeps(s: string)
    ensures TrimStart(s) != "" ==> !IsSpace(TrimStart(s)[0])
  {
    if s != "" && IsSpace(s[0]) { TrimStartKeeps(s[1..]); }
  }

  lemma TrimEnds(s: string)
    ensures Trim(s) != "" ==> !IsSpace(Trim(s)[0]) && !IsSpace(Trim(s)[|Trim(s)| - 1])
  {
    TrimStartKeeps(s);
    TrimEndKeeps(TrimStart(s));
  }

  // ---------------------------------------------------------------- every string

  function Tail(c: char, text: Option<string>): string {
    if text.Some? then [c] + text.value else ""
  }

  /** The number in front of the next separator. */
  function Number(text: Option<string>, c: char): Option<int> {
    if text.Some? then ParseInt(Split(text.value, c)[0]) else None
  }

  lemma NumberedText(a: string, c: char, text: Option<string>)
    requires c !in a
    ensures Numbered(a + Tail(c, text), c) == (a, Number(text, c))
  {
    hide ParseInt, Split;
    match text {
      case None => assert a + "" == a;
      case Some(v) =>
        SplitAt(a, c, v);
        assert a + ([c] + v) == a + [c] + v;
        assert (a + [c] + v)[|a|] == c;
    }
  }

  /** What a string is parsed to. Every string with one '@' is, once trimmed, of this form: the user ends
      at the first '_' or ':', the agent is the number behind the first '_' if that comes before the
      first ':', and the device the number behind the first ':'. */
  lemma ParseMeans(s: string, user: string, agent: Option<string>, device: Option<string>, server: string)
    requires Trim(s) == user + Tail('_', agent) + Tail(':', device) + "@" + server
    requires '_' !in user && ':' !in user && ':' !in Tail('_', agent)
    requires '@' !in user + Tail('_', agent) + Tail(':', device) && '@' !in server
    ensures var (a, d) := (Number(agent, '_'), Number(device, ':'));
            Parse(s) == if IsSafe(a) && IsSafe(d) then Ok(Jid(user, server, ToSafe(a), ToSafe(d))) else Err(Rounded)
  {
    hide IsSpace, Split, ParseInt, Trim;
    var named := user + Tail('_', agent);
    var full := named + Tail(':', device);
    assert Trim(s) == full + "@" + server;
    SplitAt(full, '@', server);
    assert Split(server, '@') == [server] by { SplitNone(server, '@'); }
    NumberedText(named, ':', device);
    NumberedText(user, '_', agent);
  }

  function Count(s: string, c: char): nat {
    if s == "" then 0 else (if s[0] == c then 1 else 0) + Count(s[1..], c)
  }

  lemma {:induction false} CountFirst(s: string, c: char)
    ensures c !in s ==> Count(s, c) == 0
    ensures c in s ==> Count(s, c) == 1 + Count(s[IndexOf(s, c) + 1..], c)
  {
    if s != "" {
      CountFirst(s[1..], c);
      assert c in s <==> s[0] == c || c in s[1..];
      if s[0] != c && c in s { assert s[1..][IndexOf(s[1..], c) + 1..] == s[IndexOf(s, c) + 1..]; }
    }
  }

  lemma {:induction false} SplitCounts(s: string, c: char)
    ensures |Split(s, c)| == 1 + Count(s, c)
    decreases |s|
  {
    CountFirst(s, c);
    if c in s { SplitCounts(s[IndexOf(s, c) + 1..], c); }
  }

  /** What is refused: white space alone, and strings without one '@' exactly. */
  lemma ParseRefuses(s: string)
    ensures Parse(s) == Err(Empty) <==> forall c :: c in s ==> IsSpace(c)
    ensures Parse(s) == Err(BadFormat) <==> (exists c :: c in s && !IsSpace(c)) && Count(Trim(s), '@') != 1
  {
    hide IsSpace, Split, Numbered, IsSafe;
    SplitCounts(Trim(s), '@');
    TrimAll(s);
    hide Trim;
  }

  lemma TrimAll(s: string)
    ensures Trim(s) == "" <==> forall c :: c in s ==> IsSpace(c)
  {
    hide IsSpace;
    TrimStartAll(s);
    TrimStartKeeps(s);
    var t := TrimStart(s);
    TrimEndAll(t);
    if t != "" { assert t[0] in t; }
  }

  lemma {:induction false} TrimStartAll(s: string)
    ensures TrimStart(s) == "" <==> forall c :: c in s ==> IsSpace(c)
  {
    hide IsSpace;
    if s != "" && IsSpace(s[0]) {
      TrimStartAll(s[1..]);
      assert s == [s[0]] + s[1..];
    } else if s != "" {
      assert s[0] in s;
    }
  }

  lemma {:induction false} TrimEndAll(s: string)
    ensures TrimEnd(s) == "" <==> forall c :: c in s ==> IsSpace(c)
  {
    hide IsSpace;
    if s != "" && IsSpace(s[|s| - 1]) {
      TrimEndAll(s[..|s| - 1]);
      assert s == s[..|s| - 1] + [s[|s| - 1]];
    } else if s != "" {
      assert s[|s| - 1] in s;
    }
  }

  /** `parseInt`: white space, one sign, digits; what follows them is ignored. */
  lemma ParseIntMeans(space: string, sign: string, digits: string, rest: string)
    requires (forall c :: c in space ==> IsSpace(c)) && sign in {"", "+", "-"}
    requires (forall c :: c in digits ==> IsDigit(c)) && (rest != "" ==> !IsDigit(rest[0]))
    requires sign == digits == "" && rest != "" ==> !IsSpace(rest[0]) && rest[0] != '+' && rest[0] != '-'
    ensures var v: int := Value(digits);
            ParseInt(space + sign + digits + rest) ==
            if digits == "" then None else Some(if sign == "-" then -v else v)
  {
    var t := sign + digits + rest;
    assert space + sign + digits + rest == space + t;
    if sign == "" && digits != "" { assert IsDigit(digits[0]); }
    TrimSpace(space, t);
    var signed := sign != "";
    assert t != "" ==> (t[0] == '-' || t[0] == '+' <==> signed);
    assert (if signed then t[1..] else t) == digits + rest;
    PrefixOf(digits, rest);
    hide IsSpace, TrimStart, DigitPrefix, Value;
  }

  lemma {:induction false} TrimSpace(space: string, t: string)
    requires (forall c :: c in space ==> IsSpace(c)) && (t != "" ==> !IsSpace(t[0]))
    ensures TrimStart(space + t) == t
  {
    hide IsSpace;
    if space == "" {
      assert space + t == t;
    } else {
      assert (space + t)[1..] == space[1..] + t;
      TrimSpace(space[1..], t);
    }
  }

  lemma {:induction false} PrefixOf(digits: string, rest: string)
    requires (forall c :: c in digits ==> IsDigit(c)) && (rest != "" ==> !IsDigit(rest[0]))
    ensures DigitPrefix(digits + rest) == digits
  {
    if digits == "" {
      assert digits + rest == rest;
    } else {
      assert (digits + rest)[1..] == digits[1..] + rest;
      PrefixOf(digits[1..], rest);
      assert digits == [digits[0]] + digits[1..];
    }
  }

  // ---------------------------------------------------------------- inversion

  lemma NumberedParses(a: string, c: char, n: Option<SafeInt>)
    requires c !in a && c != '-' && !IsDigit(c)
    ensures Numbered(a + Suffix(c, n), c) == (a, ToOption(n))
  {
    match n {
      case None => assert a + "" == a;
      case Some(v) =>
        DecimalParses(v);
        SplitAt(a, c, Decimal(v));
        assert a + ([c] + Decimal(v)) == a + [c] + Decimal(v);
        assert (a + [c] + Decimal(v))[|a|] == c;
    }
  }

  function ToOption(n: Option<SafeInt>): Option<int> {
    match n
    case None => None
    case Some(v) => Some(v)
  }

  lemma SuffixChars(c: char, n: Option<SafeInt>)
    ensures forall x :: x in Suffix(c, n) ==> x == c || x == '-' || IsDigit(x)
  {
    if n.Some? { DecimalParses(n.value); }
  }

  /** A clean JID is read back from what it prints. */
  lemma PrintParses(j: Jid)
    requires Clean(j)
    ensures Parse(Print(j)) == Ok(j)
  {
    hide IsSpace, Split, Digits, Decimal, ParseInt;
    SuffixChars('_', j.agent);
    SuffixChars(':', j.device);
    var named := j.user + Suffix('_', j.agent);
    var full := named + Suffix(':', j.device);
    var text := full + "@" + j.server;
    assert Print(j) == text;
    assert Trim(text) == text by { NothingToTrim(j); }
    assert '@' !in full;
    SplitAt(full, '@', j.server);
    assert Split(j.server, '@') == [j.server] by { SplitNone(j.server, '@'); }
    NumberedParses(named, ':', j.device);
    NumberedParses(j.user, '_', j.agent);
  }

  lemma SplitNone(s: string, c: char)
    requires c !in s
    ensures Split(s, c) == [s]
  {}

  lemma NothingToTrim(j: Jid)
    requires Clean(j)
    ensures Trim(Print(j)) == Print(j)
  {
    SuffixChars('_', j.agent);
    SuffixChars(':', j.device);
    var s := Print(j);
    var front := j.user + Suffix('_', j.agent) + Suffix(':', j.device);
    assert s == front + "@" + j.server;
    assert s[0] == if front == "" then '@' else front[0];
    if front != "" && j.user == "" {
      assert front[0] in Suffix('_', j.agent) || front[0] in Suffix(':', j.device);
    }
    assert s[|s| - 1] == if j.server == "" then '@' else j.server[|j.server| - 1];
  }

  lemma NumberedFirst(s: string, c: char)
    ensures var (first, n) := Numbered(s, c);
            first <= s && c !in first && (c !in s ==> first == s)
  {
    SplitParts(s, c);
    if c in s {
      assert Split(s, c)[0] == s[..IndexOf(s, c)];
    }
  }

  /** Whatever is parsed comes out clean. */
  lemma ParsedIsClean(s: string)
    requires Parse(s).Ok?
    ensures Clean(Parse(s).value)
  {
    hide IsSpace, Split, ParseInt, Numbered, Trim;
    var trimmed := Trim(s);
    TrimEnds(s);
    var parts := Split(trimmed, '@');
    SplitTwo(trimmed, '@');
    SplitParts(trimmed, '@');
    assert parts[0] in parts && parts[1] in parts;
    NumberedFirst(parts[0], ':');
    var named := Numbered(parts[0], ':').0;
    NumberedFirst(named, '_');
    var user := Numbered(named, '_').0;
    assert user <= named <= parts[0] <= trimmed;
    if user != "" { assert user[0] == trimmed[0]; }
    if parts[1] != "" { assert trimmed[|trimmed| - 1] == parts[1][|parts[1]| - 1]; }
  }

  /** Printing and parsing are inverse exactly on the clean JIDs. */
  lemma PrintParseExactly(j: Jid)
    ensures Parse(Print(j)) == Ok(j) <==> Clean(j)
  {
    if Clean(j) { PrintParses(j); }
    if Parse(Print(j)) == Ok(j) { ParsedIsClean(Print(j)); }
  }

  /** Parsing what was printed from a parsed string changes nothing any more. */
  lemma ParseIsStable(s: string)
    requires Parse(s).Ok?
    ensures Parse(Print(Parse(s).value)) == Parse(s)
  {
    ParsedIsClean(s);
    PrintParses(Parse(s).value);
  }

  /** Different clean JIDs print differently, so session keys never collide. */
  lemma PrintInjective(a: Jid, b: Jid)
    requires Clean(a) && Clean(b) && Print(a) == Print(b)
    ensures a == b
  {
    PrintParses(a);
    PrintParses(b);
  }
}
