/**
  Records and their text form `timestamp;key;value`, printed with sprintf and read back with
  string_split (strtok) and strtol.
 */
module Records {
  import opened Options

  datatype Record = Record(ts: nat, key: nat, value: string)

  /** A key is a uint16_t. */
  const KEYS := 0x1_0000

  const SEP := ';'
  const LF := '\n'
  const NUL := '\0'

  // ---------- Decimal numbers ----------

  predicate IsDigit(c: char) { '0' <= c <= '9' }

  function Digit(d: nat): char
    requires d < 10
  {
    ('0' as int + d) as char
  }

  /** The decimal text of a number, as printed by "%lld" and "%d". */
  function Print(n: nat): (s: string)
    ensures |s| > 0
    ensures forall i :: 0 <= i < |s| ==> IsDigit(s[i])
  {
    if n < 10 then [Digit(n)] else Print(n / 10) + [Digit(n % 10)]
  }

  /** strtol in base 10: reads digits until the first character that is none. */
  function ParseFrom(s: string, acc: nat): nat
    decreases |s|
  {
    if s == "" || !IsDigit(s[0]) then acc
    else ParseFrom(s[1..], acc * 10 + (s[0] as int - '0' as int))
  }

  function Parse(s: string): nat { ParseFrom(s, 0) }

  lemma {:induction false} ParseFromAppend(s: string, c: char, acc: nat)
    requires forall i :: 0 <= i < |s| ==> IsDigit(s[i])
    requires IsDigit(c)
    ensures ParseFrom(s + [c], acc) == ParseFrom(s, acc) * 10 + (c as int - '0' as int)
    decreases |s|
  {
    if s == "" {
      assert ParseFrom([c], acc) == ParseFrom([c][1..], acc * 10 + (c as int - '0' as int));
    } else {
      assert (s + [c])[1..] == s[1..] + [c];
      ParseFromAppend(s[1..], c, acc * 10 + (s[0] as int - '0' as int));
    }
  }

  lemma {:induction false} ParsePrint(n: nat)
    ensures Parse(Print(n)) == n
  {
    if n < 10 {
      assert Print(n) == [Digit(n)] && [Digit(n)][1..] == "";
      assert ParseFrom([Digit(n)], 0) == ParseFrom("", n);
    } else {
      ParsePrint(n / 10);
      ParseFromAppend(Print(n / 10), Digit(n % 10), 0);
    }
  }

  /** More digits never make a smaller number. */
  lemma {:induction false} PrintMonotone(m: nat, n: nat)
    requires m <= n
    ensures |Print(m)| <= |Print(n)|
  {
    if n >= 10 && m >= 10 { PrintMonotone(m / 10, n / 10); }
  }

  /** digits_in_a_number counts the characters that printing produces. */
  method DigitsInANumber(number: nat) returns (totalDigits: nat)
    ensures totalDigits == |Print(number)|
  {
    if number == 0 { return 1; }
    totalDigits := 0;
    var n := number;
    while n != 0
      invariant totalDigits + (if n == 0 then 0 else |Print(n)|) == |Print(number)|
    {
      n := n / 10;
      totalDigits := totalDigits + 1;
    }
  }

  // ---------- Tokens ----------

  /** The text before the first occurrence of c, or all of it. */
  function Until(s: string, c: char): (r: string)
    ensures |r| <= |s| && r == s[..|r|] && c !in r
    ensures |r| < |s| ==> s[|r|] == c
  {
    if s == "" || s[0] == c then "" else [s[0]] + Until(s[1..], c)
  }

  lemma {:induction false} UntilStops(a: string, c: char, rest: string)
    requires c !in a
    ensures Until(a + [c] + rest, c) == a
  {
    if a != "" {
      assert (a + [c] + rest)[1..] == a[1..] + [c] + rest;
      UntilStops(a[1..], c, rest);
    }
  }

  lemma {:induction false} UntilAll(a: string, c: char)
    requires c !in a
    ensures Until(a, c) == a
  {
    if a != "" { UntilAll(a[1..], c); }
  }

  function SkipSeparators(s: string): (r: string)
    ensures |r| <= |s| && (r != "" ==> r[0] != SEP)
  {
    if s != "" && s[0] == SEP then SkipSeparators(s[1..]) else s
  }

  /** string_split: the non-empty runs between separators, as strtok delivers them. */
  function Tokens(s: string): seq<string>
    decreases |s|
  {
    var t := SkipSeparators(s);
    if t == "" then [] else
      var token := Until(t, SEP);
      [token] + Tokens(t[|token|..])
  }

  lemma TokensSingle(a: string)
    requires a != "" && SEP !in a
    ensures Tokens(a) == [a]
  {
    UntilAll(a, SEP);
    assert a[|a|..] == "";
  }

  lemma TokensCons(a: string, rest: string)
    requires a != "" && SEP !in a
    ensures Tokens(a + [SEP] + rest) == [a] + Tokens(rest)
  {
    var s := a + [SEP] + rest;
    UntilStops(a, SEP, rest);
    assert SkipSeparators(s) == s;
    assert s[|a|..] == [SEP] + rest;
    assert ([SEP] + rest)[1..] == rest;
    assert SkipSeparators([SEP] + rest) == SkipSeparators(rest);
  }

  lemma {:induction false} TokensAreClean(s: string)
    ensures forall t :: t in Tokens(s) ==> t != "" && SEP !in t
    decreases |s|
  {
    var t := SkipSeparators(s);
    if t != "" {
      assert Until(t, SEP) != "";
      TokensAreClean(t[|Until(t, SEP)|..]);
    }
  }

  // ---------- Records as text ----------

  function Encode(r: Record): string
  {
    Print(r.ts) + [SEP] + (Print(r.key) + [SEP] + r.value)
  }

  /** convert_record: None where the source would dereference a missing token. */
  function Decode(s: string): Option<Record>
  {
    var t := Tokens(s);
    if |t| < 3 then None else Some(Record(Parse(t[0]), Parse(t[1]) % KEYS, t[2]))
  }

  lemma TokensOfEncode(r: Record)
    ensures Tokens(Encode(r)) == [Print(r.ts), Print(r.key)] + Tokens(r.value)
  {
    TokensCons(Print(r.ts), Print(r.key) + [SEP] + r.value);
    TokensCons(Print(r.key), r.value);
  }

  /** A record survives printing and splitting exactly when its value is non-empty and has no separator. */
  lemma DecodeEncode(r: Record)
    requires r.key < KEYS
    ensures Decode(Encode(r)) == Some(r) <==> r.value != "" && SEP !in r.value
  {
    TokensOfEncode(r);
    ParsePrint(r.ts);
    ParsePrint(r.key);
    if r.value != "" && SEP !in r.value {
      TokensSingle(r.value);
    } else {
      TokensAreClean(r.value);
      if |Tokens(r.value)| > 0 {
        assert Tokens(Encode(r))[2] == Tokens(r.value)[0];
        assert Tokens(r.value)[0] in Tokens(r.value);
      }
    }
  }

  lemma EncodeInjective(a: Record, b: Record)
    requires Encode(a) == Encode(b)
    ensures a == b
  {
    TokensOfEncode(a);
    TokensOfEncode(b);
    assert Tokens(Encode(a))[0] == Print(a.ts) && Tokens(Encode(b))[0] == Print(b.ts);
    assert Tokens(Encode(a))[1] == Print(a.key) && Tokens(Encode(b))[1] == Print(b.key);
    PrintInjective(a.ts, b.ts);
    PrintInjective(a.key, b.key);
    var n := |Print(a.ts)| + 1 + |Print(a.key)| + 1;
    assert a.value == Encode(a)[n..] && b.value == Encode(b)[n..];
  }

  /** A record whose text is a C string that splits into its fields again. */
  predicate Readable(r: Record) { r.key < KEYS && r.value != "" && SEP !in r.value && NUL !in r.value }

  /** What the storage engine can keep: the value must also avoid the mark that the block codec puts on cuts. */
  predicate Storable(r: Record) { Readable(r) && LF !in r.value }

  /** Total reading of a text; the default is never reached on texts of storable records. */
  function ConvertRecord(s: string): Record
  {
    match Decode(s)
    case Some(r) => r
    case None => Record(0, 0, "")
  }

  lemma EncodeProperties(r: Record)
    requires Readable(r)
    ensures ConvertRecord(Encode(r)) == r
    ensures |Tokens(Encode(r))| == 3
    ensures Tokens(Encode(r))[0] == Print(r.ts) && Tokens(Encode(r))[1] == Print(r.key) && Tokens(Encode(r))[2] == r.value
    ensures Parse(Tokens(Encode(r))[0]) == r.ts
    ensures |Encode(r)| >= 5 && NUL !in Encode(r) && IsDigit(Encode(r)[0]) && (LF in Encode(r) <==> LF in r.value)
  {
    DecodeEncode(r);
    TokensOfEncode(r);
    TokensSingle(r.value);
    ParsePrint(r.ts);
  }

  lemma PrintInjective(m: nat, n: nat)
    requires Print(m) == Print(n)
    ensures m == n
  {
    ParsePrint(m);
    ParsePrint(n);
  }

  // ---------- Sizes ----------

  /** tkv_size, also the frame size of the cache: digits of the largest key, of the clock, the value, two separators and a NUL. */
  function TkvSize(now: nat, maxValue: nat): nat
  {
    |Print(KEYS - 1)| + |Print(now)| + maxValue + 3
  }

  /** A record fits its buffer together with the terminating NUL. */
  lemma EncodeFits(r: Record, now: nat, maxValue: nat)
    requires r.key < KEYS && |r.value| <= maxValue && |Print(r.ts)| <= |Print(now)|
    ensures |Encode(r)| + 1 <= TkvSize(now, maxValue)
  {
    PrintMonotone(r.key, KEYS - 1);
  }

  /** No character is wasted: the longest value under a five-digit key at the time of the clock fills the buffer. */
  lemma EncodeFills(r: Record, now: nat, maxValue: nat)
    requires 10000 <= r.key < KEYS && |r.value| == maxValue && |Print(r.ts)| == |Print(now)|
    ensures |Encode(r)| + 1 == TkvSize(now, maxValue)
  {
    FiveDigits(r.key);
    FiveDigits(KEYS - 1);
  }

  lemma FiveDigits(key: nat)
    requires 10000 <= key < KEYS
    ensures |Print(key)| == 5
  {
    assert |Print(key / 10000)| == 1;
    assert |Print(key / 1000)| == 2;
    assert |Print(key / 100)| == 3;
    assert |Print(key / 10)| == 4;
  }
}
