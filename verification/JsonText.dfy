/** The text of a version vector, character by character: as it is printed, and as it may be read. */
module JsonText {
  import opened Base
  import opened VersionVectors
  import opened VersionVectorJson
  import Grammar = JsonGrammar

  /** `text` is `key` with a backslash before every quote and every backslash. */
  ghost predicate Escaped(key: string, text: string) {
    if key == "" then text == ""
    else
      var front, c, n := key[..|key| - 1], key[|key| - 1], |text|;
      if c == '"' || c == '\\' then n >= 2 && text[n - 1] == c && text[n - 2] == '\\' && Escaped(front, text[..n - 2])
      else n >= 1 && text[n - 1] == c && Escaped(front, text[..n - 1])
  }

  function PowerOfTen(k: nat): nat {
    if k == 0 then 1 else 10 * PowerOfTen(k - 1)
  }

  /** What a numeral is worth, the first digit counting most. */
  function Worth(digits: string): int {
    if digits == "" then 0 else (digits[0] as int - '0' as int) * PowerOfTen(|digits| - 1) + Worth(digits[1..])
  }

  /** The decimal numeral of `n`, without leading zeros. */
  ghost predicate Numeral(digits: string, n: nat) {
    && digits != "" && (forall c :: c in digits ==> '0' <= c <= '9') && (|digits| > 1 ==> digits[0] != '0')
    && Worth(digits) == n
  }

  /** `text` is the `parts` with one comma between any two, and nothing else. */
  ghost predicate Separated(text: string, parts: seq<string>)
    decreases |parts|
  {
    if parts == [] then text == ""
    else if |parts| == 1 then text == parts[0]
    else parts[0] + "," <= text && Separated(text[|parts[0]| + 1..], parts[1..])
  }

  /** `part` is one entry: the key in quotes, a colon, the clock. */
  ghost predicate IsEntry(part: string, key: string, clock: u64) {
    exists e, d :: Escaped(key, e) && Numeral(d, clock) && part == "\"" + e + "\":" + d
  }

  lemma {:induction false} EscapeIs(key: string)
    ensures Escaped(key, Escape(key))
  {
    if key != "" {
      var front, c := key[..|key| - 1], key[|key| - 1];
      EscapeIs(front);
      EscapeAppend(front, c);
      assert key == front + [c];
      var text := Escape(key);
      assert Escape([c]) == if c == '"' || c == '\\' then ['\\', c] else [c] by {
        assert [c][1..] == "";
      }
      assert text[..|Escape(front)|] == Escape(front);
    }
  }

  lemma {:induction false} WorthAppend(digits: string, c: char)
    ensures Worth(digits + [c]) == 10 * Worth(digits) + (c as int - '0' as int)
  {
    var all := digits + [c];
    if digits != "" {
      assert all[1..] == digits[1..] + [c];
      WorthAppend(digits[1..], c);
      TenTimes(digits[0] as int - '0' as int, PowerOfTen(|digits| - 1));
    } else {
      assert all[1..] == "";
    }
  }

  lemma TenTimes(a: int, b: int)
    ensures a * (10 * b) == 10 * (a * b)
  {
  }

  lemma DigitIs(d: nat)
    requires d < 10
    ensures '0' <= DigitChar(d) <= '9' && DigitChar(d) as int - '0' as int == d
  {
  }

  lemma {:induction false} DecimalIs(n: nat)
    ensures Numeral(Decimal(n), n) && (n > 0 ==> Decimal(n)[0] != '0')
  {
    if n < 10 {
      DigitIs(n);
      WorthAppend("", DigitChar(n));
      assert "" + [DigitChar(n)] == Decimal(n);
    } else {
      DecimalIs(n / 10);
      DigitIs(n % 10);
      WorthAppend(Decimal(n / 10), DigitChar(n % 10));
    }
  }

  lemma {:induction false} SeparatedAre(pairs: seq<(string, u64)>) returns (parts: seq<string>)
    ensures |parts| == |pairs| && Separated(PairsText(pairs), parts)
    ensures forall i :: 0 <= i < |parts| ==> parts[i] == PairText(pairs[i].0, pairs[i].1)
  {
    hide PairText;
    if pairs == [] {
      parts := [];
    } else {
      var rest := SeparatedAre(pairs[1..]);
      var head := PairText(pairs[0].0, pairs[0].1);
      parts := [head] + rest;
      assert parts[1..] == rest;
      if |pairs| > 1 {
        var text := PairsText(pairs);
        assert text == head + "," + PairsText(pairs[1..]);
        assert text[|head| + 1..] == PairsText(pairs[1..]);
        assert head + "," <= text;
      } else {
        assert PairsText(pairs) == head;
      }
    }
  }

  lemma PairIs(key: string, clock: u64)
    ensures IsEntry(PairText(key, clock), key, clock)
  {
    hide Escaped;
    hide Numeral;
    EscapeIs(key);
    DecimalIs(clock);
    assert PairText(key, clock) == "\"" + Escape(key) + "\":" + Decimal(clock);
  }

  /** The printed text: braces around one entry for each key, in ascending order of the keys, with commas
      between them and no white space. */
  lemma PrintedIs(v: Clocks, keys: seq<string>) returns (parts: seq<string>)
    requires StrictlySorted(keys) && forall k :: k in keys <==> k in v
    ensures |parts| == |keys| && forall i :: 0 <= i < |parts| ==> IsEntry(parts[i], keys[i], v[keys[i]])
    ensures exists text :: Separated(text, parts) && Print(v) == "{" + text + "}"
  {
    hide Separated;
    hide IsEntry;
    hide PairText;
    SameKeys(keys, v);
    var pairs := Pairs(v, keys);
    parts := SeparatedAre(pairs);
    forall i | 0 <= i < |parts|
      ensures IsEntry(parts[i], keys[i], v[keys[i]])
    {
      PairIs(pairs[i].0, pairs[i].1);
    }
    assert Print(v) == "{" + PairsText(pairs) + "}";
  }

  lemma SameKeys(keys: seq<string>, v: Clocks)
    requires StrictlySorted(keys) && forall k :: k in keys <==> k in v
    ensures keys == Sorted(v.Keys)
  {
    SortedOnce(keys, Sorted(v.Keys));
  }

  /** The six characters that count as white space, and the value of a string of digits. */
  lemma CharactersAre(c: char, digits: string)
    ensures IsSpace(c) <==> c in " \t\n\r" || c == 11 as char || c == 12 as char
    ensures (forall x :: x in digits ==> IsDigit(x)) ==> Value(digits) == Worth(digits)
    ensures IsDigit(c) <==> c in "0123456789"
  {
    if forall x :: x in digits ==> IsDigit(x) {
      ValueIsWorth(digits);
    }
  }

  lemma {:induction false} ValueIsWorth(digits: string)
    requires forall c :: c in digits ==> IsDigit(c)
    ensures Value(digits) == Worth(digits)
  {
    if digits != "" {
      var front, c := digits[..|digits| - 1], digits[|digits| - 1];
      ValueIsWorth(front);
      WorthAppend(front, c);
      assert digits == front + [c];
    }
  }

  // ----- Reading ----------------------------------------------------------------------------

  lemma {:induction false} EscapedOnce(key: string, text: string)
    requires Escaped(key, text)
    ensures text == Escape(key)
  {
    if key != "" {
      var front, c, n := key[..|key| - 1], key[|key| - 1], |text|;
      EscapeAppend(front, c);
      assert key == front + [c];
      assert [c][1..] == "";
      if c == '"' || c == '\\' {
        EscapedOnce(front, text[..n - 2]);
        assert text == text[..n - 2] + ['\\', c];
      } else {
        EscapedOnce(front, text[..n - 1]);
        assert text == text[..n - 1] + [c];
      }
    }
  }

  predicate Blank(w: string) {
    forall c :: c in w ==> c in " \t\n\r" || c == 11 as char || c == 12 as char
  }

  predicate Numeric(ds: string) {
    ds != "" && forall c :: c in ds ==> c in "0123456789"
  }

  /** One entry as it may be written: the key in quotes, a colon with white space around it, digits, white space. */
  ghost predicate MayBeEntry(part: string, key: string, digits: string) {
    exists e, w1, w2, w3 ::
      Escaped(key, e) && Blank(w1) && Blank(w2) && Blank(w3) && Numeric(digits)
      && part == "\"" + e + "\"" + w1 + ":" + w2 + digits + w3
  }

  /** An entry in the terms of the grammar. */
  lemma AsItem(part: string, key: string, digits: string, comma: bool) returns (x: Grammar.Item)
    requires MayBeEntry(part, key, digits)
    ensures Grammar.WellFormed(x) && x.key == key && x.comma == comma && x.digits == digits
    ensures Grammar.ItemText(x) == part + if comma then "," else ""
    ensures Grammar.ClockRead(x) == Worth(digits) % 0x1_0000_0000_0000_0000
  {
    var e, w1, w2, w3 :|
      Escaped(key, e) && Blank(w1) && Blank(w2) && Blank(w3) && Numeric(digits)
      && part == "\"" + e + "\"" + w1 + ":" + w2 + digits + w3;
    EscapedOnce(key, e);
    x := Grammar.Item(key, w1, w2, digits, w3, comma);
    BlankIsSpaces(w1);
    BlankIsSpaces(w2);
    BlankIsSpaces(w3);
    NumericIsDigits(digits);
    ItemIs(x);
  }

  lemma ItemIs(x: Grammar.Item)
    ensures Grammar.ItemText(x) == "\"" + Escape(x.key) + "\"" + x.beforeColon + ":" + x.afterColon + x.digits + x.after
      + if x.comma then "," else ""
  {
  }

  lemma BlankIsSpaces(w: string)
    requires Blank(w)
    ensures Grammar.Spaces(w)
  {
    forall c | c in w
      ensures IsSpace(c)
    {
      CharactersAre(c, "");
    }
  }

  lemma NumericIsDigits(digits: string)
    requires Numeric(digits)
    ensures Grammar.Digits(digits) && Value(digits) == Worth(digits)
  {
    forall c | c in digits
      ensures IsDigit(c)
    {
      CharactersAre(c, "");
    }
    ValueIsWorth(digits);
  }

  /** Two entries with a comma between them, in braces, are read as their clocks modulo 2^64, the later one of one key
      counting; white space may follow the opening brace, anything at all the closing one. */
  lemma TwoEntriesRead(
    w: string, part1: string, part2: string, rest: string, key1: string, digits1: string, key2: string, digits2: string)
    requires Blank(w) && MayBeEntry(part1, key1, digits1) && MayBeEntry(part2, key2, digits2)
    ensures Parse("{" + w + part1 + "," + part2 + "}" + rest)
      == Ok(map[key1 := Worth(digits1) % 0x1_0000_0000_0000_0000][key2 := Worth(digits2) % 0x1_0000_0000_0000_0000])
  {
    hide MayBeEntry;
    hide Worth;
    var x := AsItem(part1, key1, digits1, true);
    var y := AsItem(part2, key2, digits2, false);
    var items, json := [x, y], "{" + w + part1 + "," + part2 + "}" + rest;
    BlankIsSpaces(w);
    TwoItems(x, y);
    Grouped(w, part1, part2, rest);
    assert Grammar.Written(json, w, items, "}" + rest);
    Grammar.AcceptedExactly(json, Grammar.Filled(map[], items));
  }

  lemma TwoItems(x: Grammar.Item, y: Grammar.Item)
    requires Grammar.WellFormed(x) && Grammar.WellFormed(y)
    ensures Grammar.ItemsText([x, y]) == Grammar.ItemText(x) + Grammar.ItemText(y)
    ensures Grammar.Filled(map[], [x, y]) == map[x.key := Grammar.ClockRead(x)][y.key := Grammar.ClockRead(y)]
  {
    var two, one := [x, y], [y];
    assert two[1..] == one && one[1..] == [];
    assert Grammar.ItemsText(one) == Grammar.ItemText(y);
    var clocks: Clocks := map[x.key := Grammar.ClockRead(x)];
    assert Grammar.Filled(clocks, one) == Grammar.Filled(clocks[y.key := Grammar.ClockRead(y)], []);
  }

  lemma Grouped(w: string, part1: string, part2: string, rest: string)
    ensures "{" + w + part1 + "," + part2 + "}" + rest == "{" + (w + ((part1 + "," + (part2 + "")) + ("}" + rest)))
  {
  }

  /** Nothing is read that does not begin with a brace; after it and white space there are an entry's quote, the
      closing brace, or nothing. */
  lemma OtherwiseRefused(w: string, c: char, rest: string)
    requires Blank(w) && c !in "}\"" && !Blank([c])
    ensures Parse("").Err? && Parse("{" + w + [c] + rest).Err? && (c != '{' ==> Parse([c] + rest).Err?)
  {
    var json := "{" + w + [c] + rest;
    CharactersAre(c, "");
    assert c in [c];
    BlankIsSpaces(w);
    assert json[1..] == w + ([c] + rest);
    Grammar.SkipAll(json, 1, w, [c] + rest);
  }
}
