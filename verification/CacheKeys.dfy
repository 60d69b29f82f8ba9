/** The string keys of the usage cache and of its hit counters, printed and parsed back. */
module CacheKeys {
  import opened Optional

  /** A query parameter after `Number.parseInt`. */
  datatype Num = NaN | Int(n: int)

  datatype Params = Daily(days: Num) | Top(hours: Num, limit: Num)

  const DAILY_PREFIX := "usage:daily:"
  const TOP_PREFIX := "usage:top:"
  const HIT_PREFIX := "cache:hits:"
  const MISS_SUFFIX := ":miss"

  // ---- Printing ----

  function PrintNat(n: nat): (s: string)
    ensures s != ""
  {
    (if n < 10 then "" else PrintNat(n / 10)) + ["0123456789"[n % 10]]
  }

  function PrintNum(x: Num): (s: string)
    ensures s != ""
  {
    match x
    case NaN => "NaN"
    case Int(n) => if n < 0 then "-" + PrintNat(-n) else PrintNat(n)
  }

  function PrintKey(p: Params): string {
    match p
    case Daily(days) => DAILY_PREFIX + PrintNum(days)
    case Top(hours, limit) => TOP_PREFIX + PrintNum(hours) + ":" + PrintNum(limit)
  }

  // ---- Parsing ----

  predicate IsDigit(c: char) {
    '0' <= c <= '9'
  }

  predicate IsSpace(c: char) {
    c == ' ' || c == '\t' || c == '\n' || c == '\r'
  }

  predicate AllDigits(s: string) {
    forall i | 0 <= i < |s| :: IsDigit(s[i])
  }

  /** The longest prefix made of digits. */
  function DigitPrefix(s: string): (digits: string)
    ensures AllDigits(digits)
  {
    if s == "" || !IsDigit(s[0]) then "" else [s[0]] + DigitPrefix(s[1..])
  }

  function ValueOf(digits: string): nat
    requires AllDigits(digits)
  {
    if digits == "" then 0
    else 10 * ValueOf(digits[..|digits| - 1]) + (digits[|digits| - 1] as int - '0' as int)
  }

  /** Number.parseInt(s, 10): leading space, a sign, the digits that follow; anything after them is ignored. */
  function ParseInt(s: string): Num {
    if s != "" && IsSpace(s[0]) then ParseInt(s[1..])
    else
      var negative := s != "" && s[0] == '-';
      var unsigned := if s != "" && (s[0] == '-' || s[0] == '+') then s[1..] else s;
      var digits := DigitPrefix(unsigned);
      if digits == "" then NaN else Int(if negative then 0 - ValueOf(digits) else ValueOf(digits))
  }

  /** String.indexOf from position `i` on; |s| + 1 when there is no occurrence. */
  function IndexFrom(s: string, sub: string, i: nat): nat
    requires i <= |s|
    decreases |s| - i
  {
    if sub <= s[i..] then i else if i == |s| then |s| + 1 else IndexFrom(s, sub, i + 1)
  }

  /** s.replace(sub, ""): the first occurrence goes. */
  function RemoveFirst(s: string, sub: string): string {
    var i := IndexFrom(s, sub, 0);
    if i <= |s| && i + |sub| <= |s| then s[..i] + s[i + |sub|..] else s
  }

  /** s.split(":"). */
  function Split(s: string): (parts: seq<string>)
    ensures parts != []
  {
    if s == "" then [""]
    else
      var rest, last := Split(s[..|s| - 1]), s[|s| - 1];
      if last == ':' then rest + [""] else rest[..|rest| - 1] + [rest[|rest| - 1] + [last]]
  }

  /** The parameters a cache key names. */
  function ParseKey(key: string): Option<Params> {
    if DAILY_PREFIX <= key then Some(Daily(ParseInt(RemoveFirst(key, DAILY_PREFIX))))
    else if TOP_PREFIX <= key then
      var parts := Split(RemoveFirst(key, TOP_PREFIX));
      if |parts| == 2 then Some(Top(ParseInt(parts[0]), ParseInt(parts[1]))) else None
    else None
  }

  predicate HasNaN(p: Params) {
    match p
    case Daily(days) => days.NaN?
    case Top(hours, limit) => hours.NaN? || limit.NaN?
  }

  /** What `prewarmByCacheKey` recomputes for a key, if anything. */
  function Refreshed(key: string): Option<Params> {
    var p := ParseKey(key);
    if p.Some? && !HasNaN(p.value) then p else None
  }

  function CounterKey(cacheKey: string, isHit: bool): string {
    HIT_PREFIX + cacheKey + (if isHit then "" else MISS_SUFFIX)
  }

  /** The cache key a counter key stands for. */
  function StripCounterKey(key: string): string {
    RemoveFirst(RemoveFirst(key, HIT_PREFIX), MISS_SUFFIX)
  }

  // ---- Integers round-trip ----

  lemma {:induction false} PrintNatDigits(n: nat)
    ensures AllDigits(PrintNat(n)) && ValueOf(PrintNat(n)) == n
  {
    var d := "0123456789"[n % 10];
    assert IsDigit(d) && d as int - '0' as int == n % 10;
    if n < 10 {
      assert PrintNat(n) == [d] && [d][..0] == "";
    } else {
      PrintNatDigits(n / 10);
      assert PrintNat(n) == PrintNat(n / 10) + [d];
      assert PrintNat(n)[..|PrintNat(n)| - 1] == PrintNat(n / 10);
    }
  }

  lemma {:induction false} DigitPrefixAll(s: string)
    requires AllDigits(s)
    ensures DigitPrefix(s) == s
  {
    if s == "" {
    } else {
      DigitPrefixAll(s[1..]);
    }
  }

  lemma ParseDigits(s: string)
    requires AllDigits(s) && s != ""
    ensures ParseInt(s) == Int(ValueOf(s)) && ParseInt("-" + s) == Int(0 - ValueOf(s))
  {
    DigitPrefixAll(s);
    hide DigitPrefix, ValueOf;
    assert IsDigit(s[0]);
    assert ("-" + s)[1..] == s && ("-" + s)[0] == '-';
  }

  /** `parseInt` undoes printing, NaN included. */
  lemma ParsePrintedNum(x: Num)
    ensures ParseInt(PrintNum(x)) == x
  {
    match x
    case NaN =>
      assert DigitPrefix("NaN") == "";
    case Int(n) =>
      var magnitude := if n < 0 then -n else n;
      PrintNatDigits(magnitude);
      hide ParseInt, ValueOf, PrintNat, AllDigits;
      ParseDigits(PrintNat(magnitude));
  }

  // ---- Substrings ----

  lemma {:induction false} FirstOccurrence(s: string, sub: string, at: nat, i: nat)
    requires i <= at && at + |sub| <= |s| && sub <= s[at..]
    requires forall j | i <= j < at :: !(sub <= s[j..])
    ensures IndexFrom(s, sub, i) == at
    decreases at - i
  {
    if i == at {
    } else {
      FirstOccurrence(s, sub, at, i + 1);
    }
  }

  lemma {:induction false} NoOccurrence(s: string, sub: string, i: nat)
    requires i <= |s| && forall j | i <= j <= |s| :: !(sub <= s[j..])
    ensures IndexFrom(s, sub, i) == |s| + 1
    decreases |s| - i
  {
    if i == |s| {
    } else {
      NoOccurrence(s, sub, i + 1);
    }
  }

  lemma RemovePrefix(prefix: string, rest: string)
    ensures RemoveFirst(prefix + rest, prefix) == rest
  {
    assert (prefix + rest)[0..] == prefix + rest;
    FirstOccurrence(prefix + rest, prefix, 0, 0);
  }

  lemma NoMissAt(s: string, j: nat)
    requires j <= |s| && (j + 1 < |s| ==> s[j + 1] != 'm')
    ensures !(MISS_SUFFIX <= s[j..])
  {
    assert MISS_SUFFIX[1] == 'm';
    if j + 1 < |s| {
      assert s[j..][1] == s[j + 1];
    }
  }

  /** Text without an 'm' holds no ":miss", not even one that the suffix would complete. */
  lemma RemoveMiss(text: string)
    requires 'm' !in text
    ensures RemoveFirst(text + MISS_SUFFIX, MISS_SUFFIX) == text == RemoveFirst(text, MISS_SUFFIX)
  {
    var full := text + MISS_SUFFIX;
    forall j | 0 <= j < |text| ensures !(MISS_SUFFIX <= full[j..]) {
      NoMissAt(full, j);
    }
    assert full[|text|..] == MISS_SUFFIX;
    FirstOccurrence(full, MISS_SUFFIX, |text|, 0);
    forall j | 0 <= j <= |text| ensures !(MISS_SUFFIX <= text[j..]) {
      NoMissAt(text, j);
    }
    NoOccurrence(text, MISS_SUFFIX, 0);
  }

  // ---- Splitting ----

  lemma {:induction false} SplitPlain(s: string)
    requires ':' !in s
    ensures Split(s) == [s]
  {
    if s == "" {
    } else {
      SplitPlain(s[..|s| - 1]);
      assert s[..|s| - 1] + [s[|s| - 1]] == s;
    }
  }

  lemma {:induction false} SplitAtColon(a: string, b: string)
    requires ':' !in a && ':' !in b
    ensures Split(a + ":" + b) == [a, b]
    decreases |b|
  {
    var s := a + ":" + b;
    if b == "" {
      SplitPlain(a);
      assert s[..|s| - 1] == a;
    } else {
      assert s[..|s| - 1] == a + ":" + b[..|b| - 1];
      SplitAtColon(a, b[..|b| - 1]);
      assert b[..|b| - 1] + [b[|b| - 1]] == b;
    }
  }

  // ---- Keys round-trip ----

  lemma DigitsLack(s: string, c: char)
    requires AllDigits(s) && !IsDigit(c)
    ensures c !in s
  {
  }

  lemma PrintedNatLacks(n: nat, c: char)
    requires !IsDigit(c)
    ensures c !in PrintNat(n)
  {
    hide *;
    PrintNatDigits(n);
    DigitsLack(PrintNat(n), c);
  }

  lemma PrintedLacks(x: Num, c: char)
    requires !IsDigit(c) && c !in ['-', 'N', 'a']
    ensures c !in PrintNum(x)
  {
    hide IsDigit, PrintNat;
    if x.Int? {
      PrintedNatLacks(if x.n < 0 then -x.n else x.n, c);
    }
  }

  lemma PrintedCharacters(x: Num)
    ensures ':' !in PrintNum(x) && 'm' !in PrintNum(x)
  {
    hide PrintNum;
    PrintedLacks(x, ':');
    PrintedLacks(x, 'm');
  }

  /** Parsing a printed cache key gives back its kind and parameters. */
  lemma ParsePrintedKey(p: Params)
    ensures ParseKey(PrintKey(p)) == Some(p)
  {
    match p
    case Daily(days) =>
      RemovePrefix(DAILY_PREFIX, PrintNum(days));
      ParsePrintedNum(days);
    case Top(hours, limit) =>
      var rest := PrintNum(hours) + ":" + PrintNum(limit);
      assert PrintKey(p) == TOP_PREFIX + rest;
      assert PrintKey(p)[6] == 't' && DAILY_PREFIX[6] == 'd';
      RemovePrefix(TOP_PREFIX, rest);
      PrintedCharacters(hours);
      PrintedCharacters(limit);
      SplitAtColon(PrintNum(hours), PrintNum(limit));
      ParsePrintedNum(hours);
      ParsePrintedNum(limit);
  }

  /** Different parameters have different cache keys. */
  lemma KeysDistinct(p: Params, q: Params)
    ensures PrintKey(p) == PrintKey(q) <==> p == q
  {
    ParsePrintedKey(p);
    ParsePrintedKey(q);
  }

  lemma KeyHasNoM(p: Params)
    ensures 'm' !in PrintKey(p)
  {
    match p
    case Daily(days) => PrintedCharacters(days);
    case Top(hours, limit) =>
      PrintedCharacters(hours);
      PrintedCharacters(limit);
  }

  /** A counter key leads back to the cache key it counts, for hits and for misses. */
  lemma StripCounted(p: Params, isHit: bool)
    ensures StripCounterKey(CounterKey(PrintKey(p), isHit)) == PrintKey(p)
  {
    KeyHasNoM(p);
    RemoveMiss(PrintKey(p));
    RemovePrefix(HIT_PREFIX, PrintKey(p) + (if isHit then "" else MISS_SUFFIX));
    assert CounterKey(PrintKey(p), isHit) == HIT_PREFIX + (PrintKey(p) + (if isHit then "" else MISS_SUFFIX));
    assert PrintKey(p) + "" == PrintKey(p);
  }

  /** Hits and misses of all parameters are counted apart. */
  lemma CountersDistinct(p: Params, hitP: bool, q: Params, hitQ: bool)
    ensures CounterKey(PrintKey(p), hitP) == CounterKey(PrintKey(q), hitQ) <==> p == q && hitP == hitQ
  {
    StripCounted(p, hitP);
    StripCounted(q, hitQ);
    KeysDistinct(p, q);
    if p == q {
      assert |CounterKey(PrintKey(p), true)| < |CounterKey(PrintKey(p), false)|;
    }
  }

  /**
   A counted key refreshes the entry it was counted for, exactly when its parameters are numbers;
   a query that did not parse is counted, and never refreshed.
   */
  lemma CountedKeyRefreshes(p: Params, isHit: bool)
    ensures Refreshed(StripCounterKey(CounterKey(PrintKey(p), isHit))) == if HasNaN(p) then None else Some(p)
  {
    StripCounted(p, isHit);
    ParsePrintedKey(p);
  }

  // ---- The text functions on any text ----

  /** How keys and counters read. */
  lemma Spelling()
    ensures PrintKey(Daily(Int(30))) == "usage:daily:30" && PrintKey(Top(Int(24), Int(-3))) == "usage:top:24:-3"
    ensures PrintKey(Daily(NaN)) == "usage:daily:NaN"
    ensures CounterKey("usage:daily:30", true) == "cache:hits:usage:daily:30"
    ensures CounterKey("usage:daily:30", false) == "cache:hits:usage:daily:30:miss"
  {
    assert PrintNat(30) == "30" && PrintNat(24) == "24" && PrintNat(3) == "3";
  }

  lemma {:induction false} DigitPrefixStops(digits: string, tail: string)
    requires AllDigits(digits) && (tail == "" || !IsDigit(tail[0]))
    ensures DigitPrefix(digits + tail) == digits
  {
    if digits == "" {
      assert digits + tail == tail;
    } else {
      assert (digits + tail)[1..] == digits[1..] + tail;
      DigitPrefixStops(digits[1..], tail);
    }
  }

  lemma ParseIntSigned(sign: string, digits: string, tail: string)
    requires sign in ["", "-", "+"] && AllDigits(digits) && (tail == "" || !IsDigit(tail[0]))
    requires digits == "" && sign == "" ==> tail == "" || (!IsSpace(tail[0]) && tail[0] != '-' && tail[0] != '+')
    ensures ParseInt(sign + (digits + tail)) ==
            if digits == "" then NaN else Int(if sign == "-" then 0 - ValueOf(digits) else ValueOf(digits))
  {
    DigitPrefixStops(digits, tail);
    hide DigitPrefix, ValueOf;
    if sign == "" {
      assert sign + (digits + tail) == digits + tail;
    } else {
      assert (sign + (digits + tail))[0] == sign[0] && (sign + (digits + tail))[1..] == digits + tail;
    }
  }

  lemma ParseIntSkips(space: char, rest: string)
    requires IsSpace(space)
    ensures ParseInt([space] + rest) == ParseInt(rest)
  {
    assert ([space] + rest)[1..] == rest;
  }

  /** `parseInt` skips leading space, takes a sign and all the digits that follow, and ignores the rest. */
  lemma {:induction false} ParseIntReads(space: string, sign: string, digits: string, tail: string)
    requires forall i | 0 <= i < |space| :: IsSpace(space[i])
    requires sign in ["", "-", "+"] && AllDigits(digits) && (tail == "" || !IsDigit(tail[0]))
    requires digits == "" && sign == "" ==> tail == "" || (!IsSpace(tail[0]) && tail[0] != '-' && tail[0] != '+')
    ensures ParseInt(space + (sign + (digits + tail))) ==
            if digits == "" then NaN else Int(if sign == "-" then 0 - ValueOf(digits) else ValueOf(digits))
  {
    hide ParseInt, ValueOf, IsSpace, IsDigit;
    var text := sign + (digits + tail);
    if space == "" {
      ParseIntSigned(sign, digits, tail);
      assert space + text == text;
    } else {
      ParseIntReads(space[1..], sign, digits, tail);
      ParseIntSkips(space[0], space[1..] + text);
      assert space + text == [space[0]] + (space[1..] + text);
    }
  }

  function Join(parts: seq<string>): string
    requires parts != []
  {
    if |parts| == 1 then parts[0] else Join(parts[..|parts| - 1]) + ":" + parts[|parts| - 1]
  }

  /** Splitting gives the parts between the colons: they hold none, and joined by colons they are the text. */
  lemma {:induction false} SplitJoins(s: string)
    ensures Join(Split(s)) == s && forall i | 0 <= i < |Split(s)| :: ':' !in Split(s)[i]
  {
    if s == "" {
    } else {
      var init, last := s[..|s| - 1], s[|s| - 1];
      assert s == init + [last];
      SplitJoins(init);
      var rest := Split(init);
      if last == ':' {
        assert (rest + [""])[..|rest|] == rest;
      } else {
        JoinGrows(rest, last);
      }
    }
  }

  lemma JoinGrows(parts: seq<string>, c: char)
    requires parts != []
    ensures Join(parts[..|parts| - 1] + [parts[|parts| - 1] + [c]]) == Join(parts) + [c]
  {
    var n := |parts| - 1;
    assert (parts[..n] + [parts[n] + [c]])[..n] == parts[..n];
    if n > 0 {
      assert Join(parts[..n]) + ":" + (parts[n] + [c]) == Join(parts[..n]) + ":" + parts[n] + [c];
    }
  }

  /** `replace` takes out the first occurrence, and leaves a text without one alone. */
  lemma RemoveFirstRemoves(a: string, sub: string, b: string)
    requires forall j | 0 <= j < |a| :: !(sub <= (a + sub + b)[j..])
    ensures RemoveFirst(a + sub + b, sub) == a + b
  {
    var s := a + sub + b;
    assert s[|a|..] == sub + b;
    FirstOccurrence(s, sub, |a|, 0);
  }

  /** Keys of neither kind, and top keys without two parts, refresh nothing. */
  lemma OtherKeysRefreshNothing(key: string)
    requires !("usage:daily:" <= key)
    ensures !("usage:top:" <= key) ==> Refreshed(key) == None
    ensures |Split(RemoveFirst(key, "usage:top:"))| != 2 ==> Refreshed(key) == None
  {
  }
}
