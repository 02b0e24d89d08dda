/** The text form in which a version vector is stored in the manifest: one JSON object, its keys
    escaped with `\"` and `\\` only, read back by a lenient cursor parser. */
module VersionVectorJson {
  import opened Base
  import opened VersionVectors

  // ----- Printing ---------------------------------------------------------------------------

  predicate NeedsEscape(c: char) {
    c == '\\' || c == '"'
  }

  function Escape(key: string): string {
    if key == "" then ""
    else (if NeedsEscape(key[0]) then ['\\', key[0]] else [key[0]]) + Escape(key[1..])
  }

  function Decimal(n: nat): (s: string)
    ensures s != ""
  {
    if n < 10 then [DigitChar(n)] else Decimal(n / 10) + [DigitChar(n % 10)]
  }

  function DigitChar(d: nat): char
    requires d < 10
  {
    '0' + d as char
  }

  function PairText(key: string, clock: u64): string {
    "\"" + Escape(key) + "\":" + Decimal(clock)
  }

  /** The map as its iteration yields it. */
  function Pairs(v: Clocks, keys: seq<string>): seq<(string, u64)>
    requires forall k :: k in keys ==> k in v
  {
    seq(|keys|, i requires 0 <= i < |keys| => (keys[i], v[keys[i]]))
  }

  function PairsText(pairs: seq<(string, u64)>): string {
    if pairs == [] then ""
    else PairText(pairs[0].0, pairs[0].1) + (if |pairs| == 1 then "" else "," + PairsText(pairs[1..]))
  }

  function Print(v: Clocks): string {
    "{" + PairsText(Pairs(v, Sorted(v.Keys))) + "}"
  }

  method ToJson(v: Clocks) returns (out: string)
    ensures out == Print(v)
  {
    hide PairsText;
    hide PairText;
    out := "{";
    var first := true;
    var pairs := Pairs(v, Sorted(v.Keys));
    assert PairsText(pairs[..0]) == "" by { NoPairs(); assert pairs[..0] == []; }
    for i := 0 to |pairs|
      invariant first <==> i == 0
      invariant out == "{" + PairsText(pairs[..i])
    {
      PrintStep(pairs, i);
      if !first {
        out := out + ",";
      }
      first := false;
      var pair := PairToJson(pairs[i].0, pairs[i].1);
      out := out + pair;
    }
    assert pairs[..|pairs|] == pairs;
    out := out + "}";
  }

  lemma NoPairs()
    ensures PairsText([]) == ""
  {
  }

  lemma PrintStep(pairs: seq<(string, u64)>, i: nat)
    requires i < |pairs|
    ensures var (whole, front) := ("{" + PairsText(pairs[..i + 1]), "{" + PairsText(pairs[..i]));
      whole == (if i == 0 then front else front + ",") + PairText(pairs[i].0, pairs[i].1)
  {
    PairsTextAppend(pairs[..i], pairs[i]);
    assert pairs[..i] + [pairs[i]] == pairs[..i + 1];
    Extend(PairsText(pairs[..i]), PairText(pairs[i].0, pairs[i].1));
  }

  lemma Extend(before: string, pair: string)
    ensures ("{" + before) + "," + pair == "{" + (before + "," + pair)
    ensures ("{" + before) + pair == "{" + (before + "" + pair)
  {
  }

  method PairToJson(key: string, clock: u64) returns (out: string)
    ensures out == PairText(key, clock)
  {
    out := "\"";
    for j := 0 to |key|
      invariant out == "\"" + Escape(key[..j])
    {
      EscapeAppend(key[..j], key[j]);
      assert key[..j] + [key[j]] == key[..j + 1];
      if NeedsEscape(key[j]) {
        out := out + "\\";
      }
      out := out + [key[j]];
    }
    assert key[..|key|] == key;
    out := out + "\":" + Decimal(clock);
  }

  lemma EscapeAppend(key: string, c: char)
    ensures Escape(key + [c]) == Escape(key) + Escape([c])
  {
    if key == "" {
      assert key + [c] == [c];
    } else {
      assert (key + [c])[1..] == key[1..] + [c];
      EscapeAppend(key[1..], c);
    }
  }

  lemma {:induction false} PairsTextAppend(pairs: seq<(string, u64)>, p: (string, u64))
    ensures PairsText(pairs + [p])
         == PairsText(pairs) + (if pairs == [] then "" else ",") + PairText(p.0, p.1)
  {
    if pairs != [] {
      var longer := pairs + [p];
      assert longer[1..] == pairs[1..] + [p] && longer[0] == pairs[0];
      PairsTextAppend(pairs[1..], p);
      LastRegroup(PairText(pairs[0].0, pairs[0].1), PairsText(pairs[1..]), PairText(p.0, p.1));
    }
  }

  lemma LastRegroup(head: string, tail: string, last: string)
    ensures head + ("," + (tail + "," + last)) == head + ("," + tail) + "," + last
  {
  }

  // ----- Parsing ----------------------------------------------------------------------------

  predicate IsSpace(c: char) {
    c == ' ' || '\t' <= c <= '\r'
  }

  predicate IsDigit(c: char) {
    '0' <= c <= '9'
  }

  function SkipSpaces(s: string, pos: nat): (r: nat)
    requires pos <= |s|
    ensures pos <= r <= |s|
    decreases |s| - pos
  {
    if pos < |s| && IsSpace(s[pos]) then SkipSpaces(s, pos + 1) else pos
  }

  /** From just after the opening quote: the key and the position after the closing quote. */
  function ParseKey(s: string, pos: nat, key: string): (r: Result<(string, nat)>)
    requires pos <= |s|
    ensures r.Ok? ==> pos < r.value.1 <= |s|
    decreases |s| - pos
  {
    if pos == |s| then Err("unterminated string")
    else if s[pos] == '"' then Ok((key, pos + 1))
    else if s[pos] != '\\' then ParseKey(s, pos + 1, key + [s[pos]])
    else if pos + 1 == |s| || !NeedsEscape(s[pos + 1]) then Err("unsupported escape sequence")
    else ParseKey(s, pos + 2, key + [s[pos + 1]])
  }

  function DigitValue(c: char): nat
    requires IsDigit(c)
  {
    c as int - '0' as int
  }

  /** One more digit in a 64-bit accumulator: the multiplication and the addition wrap. */
  function PushDigit(value: u64, c: char): u64
    requires IsDigit(c)
  {
    (value as int * 10 + DigitValue(c)) % 0x1_0000_0000_0000_0000
  }

  function ParseDigits(s: string, pos: nat, value: u64): (r: (u64, nat))
    requires pos <= |s|
    ensures pos <= r.1 <= |s|
    decreases |s| - pos
  {
    if pos < |s| && IsDigit(s[pos]) then ParseDigits(s, pos + 1, PushDigit(value, s[pos]))
    else (value, pos)
  }

  function ParsePairs(s: string, pos: nat, clocks: Clocks): Result<Clocks>
    requires pos <= |s|
    decreases |s| - pos
  {
    if pos == |s| || s[pos] == '}' then Ok(clocks)
    else if s[pos] != '"' then Err("expected '\"' for key")
    else
      match ParseKey(s, pos + 1, "")
      case Err(e) => Err(e)
      case Ok((key, afterKey)) =>
        var colon := SkipSpaces(s, afterKey);
        if colon == |s| || s[colon] != ':' then Err("expected ':' after key")
        else
          var start := SkipSpaces(s, colon + 1);
          if start == |s| || !IsDigit(s[start]) then Err("expected number for value")
          else
            var (value, afterValue) := ParseDigits(s, start, 0);
            var next := SkipSpaces(s, afterValue);
            if next == |s| then Err("unexpected end")
            else if s[next] == ',' then ParsePairs(s, next + 1, clocks[key := value])
            else if s[next] == '}' then Ok(clocks[key := value])
            else ParsePairs(s, next, clocks[key := value])
  }

  function Parse(s: string): Result<Clocks> {
    if s == "" || s[0] != '{' then Err("must start with '{'")
    else ParsePairs(s, SkipSpaces(s, 1), map[])
  }

  /** The inner loop over a key; `pos` ends behind the closing quote. */
  method ReadKey(json: string, start: nat) returns (r: Result<(string, nat)>)
    requires start <= |json|
    ensures r == ParseKey(json, start, "")
  {
    hide NeedsEscape;
    var pos, key := start, "";
    while pos < |json| && json[pos] != '"'
      invariant pos <= |json|
      invariant ParseKey(json, pos, key) == ParseKey(json, start, "")
      decreases |json| - pos
    {
      if json[pos] == '\\' {
        pos := pos + 1;
        if pos >= |json| || !NeedsEscape(json[pos]) {
          return Err("unsupported escape sequence");
        }
      }
      key := key + [json[pos]];
      pos := pos + 1;
    }
    if pos >= |json| {
      return Err("unterminated string");
    }
    return Ok((key, pos + 1));
  }

  /** The inner loop over the digits of a clock. */
  method ReadNumber(json: string, start: nat) returns (value: u64, pos: nat)
    requires start <= |json|
    ensures (value, pos) == ParseDigits(json, start, 0)
  {
    hide PushDigit;
    value, pos := 0, start;
    while pos < |json| && IsDigit(json[pos])
      invariant pos <= |json|
      invariant ParseDigits(json, pos, value) == ParseDigits(json, start, 0)
      decreases |json| - pos
    {
      value := PushDigit(value, json[pos]);
      pos := pos + 1;
    }
  }

  /** The cursor loops of the source; they end on every input. */
  method FromJson(json: string) returns (r: Result<Clocks>)
    ensures r == Parse(json)
  {
    hide ParseKey;
    hide ParseDigits;
    hide SkipSpaces;
    hide IsDigit;
    var clocks: Clocks := map[];
    if json == "" || json[0] != '{' {
      return Err("must start with '{'");
    }
    var pos := SkipSpaces(json, 1);
    while pos < |json|
      invariant 0 <= pos <= |json|
      invariant ParsePairs(json, pos, clocks) == Parse(json)
      decreases |json| - pos
    {
      if json[pos] == '}' {
        break;
      }
      if json[pos] != '"' {
        return Err("expected '\"' for key");
      }
      var read := ReadKey(json, pos + 1);
      if read.Err? {
        return Err(read.message);
      }
      var key := read.value.0;
      pos := SkipSpaces(json, read.value.1);
      if pos >= |json| || json[pos] != ':' {
        return Err("expected ':' after key");
      }
      pos := SkipSpaces(json, pos + 1);

      if pos >= |json| || !IsDigit(json[pos]) {
        return Err("expected number for value");
      }
      var value: u64;
      value, pos := ReadNumber(json, pos);
      clocks := clocks[key := value];

      pos := SkipSpaces(json, pos);
      if pos < |json| && json[pos] == ',' {
        pos := pos + 1;
      } else if pos < |json| && json[pos] == '}' {
        break;
      } else if pos >= |json| {
        return Err("unexpected end");
      }
    }
    return Ok(clocks);
  }

  // ----- Round trip -------------------------------------------------------------------------

  lemma AfterHead(s: string, pos: nat, head: string, rest: string)
    requires pos <= |s| && s[pos..] == head + rest
    ensures pos + |head| <= |s| && s[pos + |head|..] == rest
    ensures rest != "" ==> pos + |head| < |s| && s[pos + |head|] == rest[0]
    ensures rest == "" ==> pos + |head| == |s|
  {
    assert s[pos + |head|..] == s[pos..][|head|..];
  }

  lemma HeadAt(s: string, pos: nat, head: string, rest: string, i: nat)
    requires pos <= |s| && s[pos..] == head + rest && i < |head|
    ensures pos + i < |s| && s[pos + i] == head[i]
  {
    assert s[pos + i] == s[pos..][i];
  }

  lemma {:induction false} ParsePrintedKey(s: string, pos: nat, key: string, acc: string, rest: string)
    requires pos <= |s| && s[pos..] == Escape(key) + ("\"" + rest)
    ensures ParseKey(s, pos, acc) == Ok((acc + key, pos + |Escape(key)| + 1))
    decreases |key|
  {
    AfterHead(s, pos, Escape(key), "\"" + rest);
    if key == "" {
      assert acc + key == acc;
    } else {
      var head, tail := if NeedsEscape(key[0]) then ['\\', key[0]] else [key[0]], Escape(key[1..]);
      assert Escape(key) + ("\"" + rest) == head + (tail + ("\"" + rest));
      AfterHead(s, pos, head, tail + ("\"" + rest));
      ParsePrintedKey(s, pos + |head|, key[1..], acc + [key[0]], rest);
      assert acc + [key[0]] + key[1..] == acc + key;
      HeadAt(s, pos, head, tail + ("\"" + rest), 0);
      if NeedsEscape(key[0]) {
        HeadAt(s, pos, head, tail + ("\"" + rest), 1);
      }
    }
  }

  /** The exact value of a digit string. */
  function Value(ds: string): nat
    requires forall c :: c in ds ==> IsDigit(c)
  {
    if ds == "" then 0 else Value(ds[..|ds| - 1]) * 10 + DigitValue(ds[|ds| - 1])
  }

  lemma {:induction false} DecimalDigits(n: nat)
    ensures forall c :: c in Decimal(n) ==> IsDigit(c)
    ensures Value(Decimal(n)) == n
  {
    var ds := Decimal(n);
    if n >= 10 {
      DecimalDigits(n / 10);
      assert ds[..|ds| - 1] == Decimal(n / 10);
      assert ds[|ds| - 1] == DigitChar(n % 10);
    } else {
      assert ds[..0] == "";
      assert ds[0] == DigitChar(n);
    }
  }

  lemma {:induction false} PrefixValue(ds: string, k: nat)
    requires k <= |ds| && forall c :: c in ds ==> IsDigit(c)
    ensures Value(ds[..k]) <= Value(ds)
    decreases |ds|
  {
    if k < |ds| {
      PrefixValue(ds[..|ds| - 1], k);
      assert ds[..|ds| - 1][..k] == ds[..k];
    } else {
      assert ds[..k] == ds;
    }
  }

  /** On a printed clock, no turn of the digit loop overflows 64 bits. */
  lemma PrintedClockNeverWraps(n: u64, k: nat)
    requires k < |Decimal(n)|
    ensures var ds := Decimal(n);
      && (forall c :: c in ds ==> IsDigit(c))
      && Value(ds[..k]) * 10 + DigitValue(ds[k]) <= n < TWO_64
      && PushDigit(Value(ds[..k]), ds[k]) == Value(ds[..k + 1])
  {
    hide Decimal;
    var ds := Decimal(n);
    DecimalDigits(n);
    assert ds[..k + 1][..k] == ds[..k];
    PrefixValue(ds, k + 1);
  }

  lemma Remainder(x: int, q: int, r: int)
    requires x == q * TWO_64 + r && 0 <= r < TWO_64
    ensures x % TWO_64 == r
  {
  }

  lemma PushModulo(v: nat, c: char)
    requires IsDigit(c)
    ensures PushDigit(v % TWO_64, c) == (v * 10 + DigitValue(c)) % TWO_64
  {
    var q, r := v / TWO_64, v % TWO_64;
    var x := r * 10 + DigitValue(c);
    var q', r' := x / TWO_64, x % TWO_64;
    assert v == q * TWO_64 + r && x == q' * TWO_64 + r';
    assert v * 10 + DigitValue(c) == (q * 10 + q') * TWO_64 + r';
    Remainder(v * 10 + DigitValue(c), q * 10 + q', r');
  }

  /** Any other digit string is read modulo 2^64: exactly the ones below it are read truly. */
  lemma {:induction false} ParseDigitString(s: string, pos: nat, ds: string, k: nat, rest: string)
    requires pos <= |s| && s[pos..] == ds + rest && (rest == "" || !IsDigit(rest[0]))
    requires forall c :: c in ds ==> IsDigit(c)
    requires k <= |ds| && pos + k <= |s|
    ensures ParseDigits(s, pos + k, Value(ds[..k]) % TWO_64) == (Value(ds) % TWO_64, pos + |ds|)
    decreases |ds| - k
  {
    if k < |ds| {
      assert ds[..k + 1][..k] == ds[..k];
      HeadAt(s, pos, ds, rest, k);
      PushModulo(Value(ds[..k]), ds[k]);
      ParseDigitString(s, pos, ds, k + 1, rest);
    } else {
      AfterHead(s, pos, ds, rest);
      assert ds[..k] == ds;
    }
  }

  lemma Empty(n: u64)
    ensures Value("") == 0 && n % TWO_64 == n
  {
  }

  lemma ParsePrintedClock(s: string, pos: nat, n: u64, rest: string)
    requires pos <= |s| && s[pos..] == Decimal(n) + rest && (rest == "" || !IsDigit(rest[0]))
    ensures pos < |s| && IsDigit(s[pos])
    ensures ParseDigits(s, pos, 0) == (n, pos + |Decimal(n)|)
  {
    hide Decimal;
    hide Value;
    var ds := Decimal(n);
    DecimalDigits(n);
    Empty(n);
    HeadAt(s, pos, ds, rest, 0);
    assert ds[..0] == "" && ds[0] in ds;
    ParseDigitString(s, pos, ds, 0, rest);
  }

  /** Where the pieces of a printed pair lie. */
  lemma PairLayout(s: string, pos: nat, esc: string, ds: string, rest: string)
    requires pos <= |s| && s[pos..] == ("\"" + esc + "\":" + ds) + rest
    ensures pos + |esc| + 3 <= |s| && s[pos] == '"' && s[pos + |esc| + 2] == ':'
    ensures s[pos + 1..] == esc + ("\"" + (":" + (ds + rest)))
    ensures s[pos + |esc| + 3..] == ds + rest
  {
    var tail := "\"" + (":" + (ds + rest));
    PairRegroup(esc, ds, rest);
    HeadAt(s, pos, "\"", esc + tail, 0);
    AfterHead(s, pos, "\"", esc + tail);
    AfterHead(s, pos + 1, esc, tail);
    AfterHead(s, pos + 1 + |esc|, "\"", ":" + (ds + rest));
    AfterHead(s, pos + 2 + |esc|, ":", ds + rest);
  }

  lemma PairRegroup(esc: string, ds: string, rest: string)
    ensures ("\"" + esc + "\":" + ds) + rest == "\"" + (esc + ("\"" + (":" + (ds + rest))))
  {
  }

  /** One turn of the parser's loop, from the results of its parts. */
  lemma ParseStep(s: string, pos: nat, clocks: Clocks, key: string, colon: nat, n: u64, next: nat)
    requires pos < |s| && s[pos] == '"' && ParseKey(s, pos + 1, "") == Ok((key, colon))
    requires colon + 1 < |s| && s[colon] == ':' && IsDigit(s[colon + 1])
    requires ParseDigits(s, colon + 1, 0) == (n, next)
    requires next < |s| && (s[next] == ',' || s[next] == '}')
    ensures ParsePairs(s, pos, clocks)
         == if s[next] == ',' then ParsePairs(s, next + 1, clocks[key := n]) else Ok(clocks[key := n])
  {
    assert SkipSpaces(s, colon) == colon && SkipSpaces(s, colon + 1) == colon + 1;
    assert SkipSpaces(s, next) == next;
  }

  ghost predicate TextAt(s: string, pos: nat, text: string) {
    pos <= |s| && s[pos..] == text
  }

  /** One printed pair followed by `,` or `}` is read back as that pair. */
  lemma ParsePrintedPair(s: string, pos: nat, key: string, n: u64, rest: string, clocks: Clocks)
    requires pos <= |s| && TextAt(s, pos, PairText(key, n) + rest)
    requires rest != "" && (rest[0] == ',' || rest[0] == '}')
    ensures var next := pos + |PairText(key, n)|;
      && next < |s| && s[next] == rest[0]
      && ParsePairs(s, pos, clocks)
         == if rest[0] == ',' then ParsePairs(s, next + 1, clocks[key := n]) else Ok(clocks[key := n])
  {
    hide PairText;
    hide ParsePairs;
    hide ParseKey;
    hide ParseDigits;
    hide Escape;
    var next := pos + |PairText(key, n)|;
    ParsePrintedParts(s, pos, key, n, rest);
    ParseStep(s, pos, clocks, key, pos + |Escape(key)| + 2, n, next);
  }

  lemma ParsePrintedParts(s: string, pos: nat, key: string, n: u64, rest: string)
    requires pos <= |s| && s[pos..] == PairText(key, n) + rest
    requires rest != "" && (rest[0] == ',' || rest[0] == '}')
    ensures var colon := pos + |Escape(key)| + 2;
      && colon + 1 < |s| && s[pos] == '"' && s[colon] == ':' && IsDigit(s[colon + 1])
      && ParseKey(s, pos + 1, "") == Ok((key, colon))
      && ParseDigits(s, colon + 1, 0) == (n, pos + |PairText(key, n)|)
      && pos + |PairText(key, n)| < |s| && s[pos + |PairText(key, n)|] == rest[0]
  {
    var esc, ds := Escape(key), Decimal(n);
    PairLayout(s, pos, esc, ds, rest);
    ParsePrintedKey(s, pos + 1, key, "", ":" + (ds + rest));
    assert "" + key == key;
    ParsePrintedClock(s, pos + |esc| + 3, n, rest);
    AfterHead(s, pos + |esc| + 3, ds, rest);
  }

  function Fill(clocks: Clocks, pairs: seq<(string, u64)>): Clocks
    decreases |pairs|
  {
    if pairs == [] then clocks else Fill(clocks[pairs[0].0 := pairs[0].1], pairs[1..])
  }

  lemma {:induction false} FillPairs(v: Clocks, keys: seq<string>, clocks: Clocks)
    requires forall k :: k in v <==> k in keys || k in clocks
    requires forall k :: k in clocks ==> k in v && clocks[k] == v[k]
    ensures Fill(clocks, Pairs(v, keys)) == v
  {
    if keys == [] {
      assert clocks == v;
    } else {
      assert Pairs(v, keys)[1..] == Pairs(v, keys[1..]);
      assert forall k :: k in keys <==> k == keys[0] || k in keys[1..];
      FillPairs(v, keys[1..], clocks[keys[0] := v[keys[0]]]);
    }
  }

  /** What follows the first pair in the printed text. */
  function AfterPair(pairs: seq<(string, u64)>): string
    requires pairs != []
  {
    if |pairs| == 1 then "}" else "," + (PairsText(pairs[1..]) + "}")
  }

  lemma FirstPair(pairs: seq<(string, u64)>, s: string, pos: nat)
    requires pairs != [] && TextAt(s, pos, PairsText(pairs) + "}")
    ensures TextAt(s, pos, PairText(pairs[0].0, pairs[0].1) + AfterPair(pairs))
    ensures |pairs| > 1 ==>
      TextAt(s, pos + |PairText(pairs[0].0, pairs[0].1)| + 1, PairsText(pairs[1..]) + "}")
  {
    var head, tail := PairText(pairs[0].0, pairs[0].1), PairsText(pairs[1..]);
    BraceRegroup(head, tail);
    AfterHead(s, pos, head, AfterPair(pairs));
    if |pairs| > 1 {
      AfterHead(s, pos + |head|, ",", tail + "}");
    }
  }

  lemma BraceRegroup(head: string, tail: string)
    ensures (head + ("," + tail)) + "}" == head + ("," + (tail + "}"))
    ensures (head + "") + "}" == head + "}"
  {
  }

  lemma ParseNoPair(s: string, pos: nat, clocks: Clocks)
    requires pos <= |s| && TextAt(s, pos, PairsText([]) + "}")
    ensures ParsePairs(s, pos, clocks) == Ok(clocks)
  {
    AfterHead(s, pos, "", "}");
  }

  lemma ParseFirstPair(pairs: seq<(string, u64)>, s: string, pos: nat, clocks: Clocks)
    requires pairs != [] && pos <= |s| && TextAt(s, pos, PairsText(pairs) + "}")
    ensures var next, clocks' := pos + |PairText(pairs[0].0, pairs[0].1)|, clocks[pairs[0].0 := pairs[0].1];
      && next < |s|
      && (|pairs| == 1 ==> ParsePairs(s, pos, clocks) == Ok(clocks'))
      && (|pairs| > 1 ==> TextAt(s, next + 1, PairsText(pairs[1..]) + "}"))
      && (|pairs| > 1 ==> ParsePairs(s, pos, clocks) == ParsePairs(s, next + 1, clocks'))
  {
    hide TextAt;
    hide PairsText;
    hide PairText;
    hide ParsePairs;
    FirstPair(pairs, s, pos);
    ParsePrintedPair(s, pos, pairs[0].0, pairs[0].1, AfterPair(pairs), clocks);
  }

  lemma {:induction false} ParsePrintedPairs(pairs: seq<(string, u64)>, s: string, pos: nat, clocks: Clocks)
    requires pos <= |s| && TextAt(s, pos, PairsText(pairs) + "}")
    ensures ParsePairs(s, pos, clocks) == Ok(Fill(clocks, pairs))
    decreases |pairs|
  {
    hide TextAt;
    hide PairsText;
    hide PairText;
    if pairs == [] {
      ParseNoPair(s, pos, clocks);
    } else {
      ParseFirstPair(pairs, s, pos, clocks);
      if |pairs| > 1 {
        var next := pos + |PairText(pairs[0].0, pairs[0].1)|;
        ParsePrintedPairs(pairs[1..], s, next + 1, clocks[pairs[0].0 := pairs[0].1]);
      }
    }
  }

  /** `from_json(to_json(v)) == v`, for every key text and every 64-bit clock. */
  lemma RoundTrip(v: Clocks)
    ensures Parse(Print(v)) == Ok(v)
  {
    var s, pairs := Print(v), Pairs(v, Sorted(v.Keys));
    AfterHead(s, 0, "{", PairsText(pairs) + "}");
    assert pairs != [] ==> PairsText(pairs)[0] == '"';
    assert SkipSpaces(s, 1) == 1;
    ParsePrintedPairs(pairs, s, 1, map[]);
    FillPairs(v, Sorted(v.Keys), map[]);
  }
}
