/** Which texts the parser of version vectors accepts, and as what. */
module JsonGrammar {
  import opened Base
  import opened VersionVectors
  import opened VersionVectorJson

  /** One entry as it may be written: white space around the colon and after the digits, and a comma or
      none. */
  datatype Item = Item(
    key: string, beforeColon: string, afterColon: string, digits: string, after: string, comma: bool)

  predicate Spaces(w: string) {
    forall c :: c in w ==> IsSpace(c)
  }

  predicate Digits(ds: string) {
    ds != "" && forall c :: c in ds ==> IsDigit(c)
  }

  predicate WellFormed(x: Item) {
    Spaces(x.beforeColon) && Spaces(x.afterColon) && Digits(x.digits) && Spaces(x.after)
  }

  function ColonText(x: Item): string {
    x.beforeColon + (":" + (x.afterColon + (x.digits + (x.after + (if x.comma then "," else "")))))
  }

  function ItemText(x: Item): string {
    "\"" + (Escape(x.key) + ("\"" + ColonText(x)))
  }

  function ItemsText(items: seq<Item>): string {
    if items == [] then "" else ItemText(items[0]) + ItemsText(items[1..])
  }

  /** The last entries may follow each other without a comma, and after a comma the text may end. */
  predicate MayEnd(items: seq<Item>, end: string) {
    if end == "" then items == [] || items[|items| - 1].comma else end[0] == '}'
  }

  /** What is written: a brace, white space, entries, and a closing brace with anything behind it, or
      nothing where that is allowed. White space may not follow a comma. */
  ghost predicate Written(json: string, w: string, items: seq<Item>, end: string) {
    && Spaces(w) && (forall i :: 0 <= i < |items| ==> WellFormed(items[i])) && MayEnd(items, end)
    && json == "{" + (w + (ItemsText(items) + end))
  }

  function ClockRead(x: Item): u64
    requires WellFormed(x)
  {
    Value(x.digits) % 0x1_0000_0000_0000_0000
  }

  /** The clocks, each modulo 2^64, later entries of a key replacing earlier ones. */
  function Filled(clocks: Clocks, items: seq<Item>): Clocks
    requires forall i :: 0 <= i < |items| ==> WellFormed(items[i])
    decreases |items|
  {
    if items == [] then clocks else Filled(clocks[items[0].key := ClockRead(items[0])], items[1..])
  }

  // ----- What is written is read ------------------------------------------------------------

  lemma {:induction false} SkipAll(s: string, pos: nat, w: string, rest: string)
    requires TextAt(s, pos, w + rest) && Spaces(w) && (rest == "" || !IsSpace(rest[0]))
    ensures SkipSpaces(s, pos) == pos + |w| && TextAt(s, pos + |w|, rest)
    decreases |w|
  {
    AfterHead(s, pos, w, rest);
    if w != "" {
      HeadAt(s, pos, w, rest, 0);
      assert w[0] in w && w + rest == [w[0]] + (w[1..] + rest);
      AfterHead(s, pos, [w[0]], w[1..] + rest);
      SkipAll(s, pos + 1, w[1..], rest);
    }
  }

  /** What may follow an entry. */
  predicate MayFollow(x: Item, rest: string) {
    x.comma || (rest != "" && (rest[0] == '}' || rest[0] == '"'))
  }

  lemma ReadDigits(s: string, pos: nat, ds: string, rest: string)
    requires TextAt(s, pos, ds + rest) && Digits(ds) && (rest == "" || !IsDigit(rest[0]))
    ensures pos < |s| && IsDigit(s[pos]) && ParseDigits(s, pos, 0) == (Value(ds) % TWO_64, pos + |ds|)
    ensures TextAt(s, pos + |ds|, rest)
  {
    hide Value;
    HeadAt(s, pos, ds, rest, 0);
    AfterHead(s, pos, ds, rest);
    assert ds[..0] == "" && ds[0] in ds;
    Empty(0);
    ParseDigitString(s, pos, ds, 0, rest);
  }

  lemma OneChar(s: string, pos: nat, c: string, rest: string)
    requires TextAt(s, pos, c + rest) && |c| == 1
    ensures pos < |s| && s[pos] == c[0] && TextAt(s, pos + 1, rest)
  {
    HeadAt(s, pos, c, rest, 0);
    AfterHead(s, pos, c, rest);
  }

  /** What follows an entry's digits and the white space after them. */
  function Tail(x: Item, rest: string): string {
    (if x.comma then "," else "") + rest
  }

  /** From the end of the key to the digits. */
  lemma ReadColon(s: string, pos: nat, before: string, between: string, rest: string)
    requires TextAt(s, pos, before + (":" + (between + rest))) && Spaces(before) && Spaces(between)
    requires rest != "" && !IsSpace(rest[0])
    ensures var colon := pos + |before|;
      && colon < |s| && SkipSpaces(s, pos) == colon && s[colon] == ':'
      && SkipSpaces(s, colon + 1) == colon + 1 + |between| && TextAt(s, colon + 1 + |between|, rest)
  {
    hide TextAt;
    hide SkipSpaces;
    hide Spaces;
    ColonFirst(between + rest);
    SkipAll(s, pos, before, ":" + (between + rest));
    OneChar(s, pos + |before|, ":", between + rest);
    SkipAll(s, pos + |before| + 1, between, rest);
  }

  lemma ColonFirst(rest: string)
    ensures !IsSpace((":" + rest)[0])
  {
  }

  /** From the digits on. */
  lemma ReadNumber(s: string, pos: nat, x: Item, rest: string)
    requires TextAt(s, pos, x.digits + (x.after + Tail(x, rest))) && WellFormed(x) && MayFollow(x, rest)
    ensures pos < |s| && IsDigit(s[pos]) && ParseDigits(s, pos, 0).0 == ClockRead(x)
    ensures var next := SkipSpaces(s, ParseDigits(s, pos, 0).1);
      && next == pos + |x.digits| + |x.after| < |s| && (x.comma ==> s[next] == ',') && (!x.comma ==> s[next] == rest[0])
      && TextAt(s, if x.comma then next + 1 else next, rest)
  {
    hide TextAt;
    hide SkipSpaces;
    hide ParseDigits;
    hide Value;
    hide Spaces;
    hide Digits;
    hide Tail;
    hide IsSpace;
    TailBegins(x, rest);
    NoDigitAfter(x, Tail(x, rest));
    ReadDigits(s, pos, x.digits, x.after + Tail(x, rest));
    SkipAll(s, pos + |x.digits|, x.after, Tail(x, rest));
    TailAt(s, pos + |x.digits| + |x.after|, x, rest);
  }

  lemma TailAt(s: string, next: nat, x: Item, rest: string)
    requires TextAt(s, next, Tail(x, rest)) && MayFollow(x, rest)
    ensures next < |s| && (x.comma ==> s[next] == ',') && (!x.comma ==> s[next] == rest[0])
    ensures TextAt(s, if x.comma then next + 1 else next, rest)
  {
    hide TextAt;
    if x.comma {
      OneChar(s, next, ",", rest);
    } else {
      assert Tail(x, rest) == rest;
      FirstAt(s, next, rest);
    }
  }

  lemma TailBegins(x: Item, rest: string)
    requires MayFollow(x, rest)
    ensures var end := Tail(x, rest); end != "" && !IsSpace(end[0]) && !IsDigit(end[0])
  {
  }

  lemma FirstAt(s: string, pos: nat, rest: string)
    requires TextAt(s, pos, rest) && rest != ""
    ensures pos < |s| && s[pos] == rest[0]
  {
  }

  lemma NoDigitAfter(x: Item, end: string)
    requires WellFormed(x) && end != "" && !IsDigit(end[0])
    ensures x.after + end != "" && !IsDigit((x.after + end)[0])
  {
    if x.after != "" {
      assert x.after[0] in x.after;
    }
  }

  /** An entry's text and what follows it, piece by piece. */
  lemma Unnest(x: Item, rest: string)
    ensures ItemText(x) + rest == "\"" + (Escape(x.key) + ("\"" + (x.beforeColon + (":" + (x.afterColon
      + (x.digits + (x.after + Tail(x, rest))))))))
    ensures |ItemText(x)| == |Escape(x.key)| + |x.beforeColon| + |x.afterColon| + |x.digits| + |x.after|
      + (if x.comma then 4 else 3)
  {
  }

  lemma ReadKey(s: string, pos: nat, key: string, rest: string)
    requires TextAt(s, pos, "\"" + (Escape(key) + ("\"" + rest)))
    ensures pos < |s| && s[pos] == '"' && ParseKey(s, pos + 1, "") == Ok((key, pos + 2 + |Escape(key)|))
    ensures TextAt(s, pos + 2 + |Escape(key)|, rest)
  {
    hide TextAt;
    hide ParseKey;
    hide Escape;
    OneChar(s, pos, "\"", Escape(key) + ("\"" + rest));
    KeyAt(s, pos + 1, key, rest);
    OneChar(s, pos + 1 + |Escape(key)|, "\"", rest);
  }

  lemma KeyAt(s: string, pos: nat, key: string, rest: string)
    requires TextAt(s, pos, Escape(key) + ("\"" + rest))
    ensures pos <= |s| && ParseKey(s, pos, "") == Ok((key, pos + |Escape(key)| + 1))
    ensures TextAt(s, pos + |Escape(key)|, "\"" + rest)
  {
    hide ParseKey;
    hide Escape;
    ParsePrintedKey(s, pos, key, "", rest);
    NoAccumulator(key);
    AfterHead(s, pos, Escape(key), "\"" + rest);
  }

  lemma ReadItem(s: string, pos: nat, x: Item, rest: string, clocks: Clocks)
    requires TextAt(s, pos, ItemText(x) + rest) && WellFormed(x) && MayFollow(x, rest)
    ensures TextAt(s, pos + |ItemText(x)|, rest)
    ensures ParsePairs(s, pos, clocks) == ParsePairs(s, pos + |ItemText(x)|, clocks[x.key := ClockRead(x)])
  {
    hide TextAt;
    hide SkipSpaces;
    hide ParseDigits;
    hide ParseKey;
    hide ItemText;
    hide Escape;
    hide ClockRead;
    hide Tail;
    hide IsSpace;
    var number := x.digits + (x.after + Tail(x, rest));
    var value := x.beforeColon + (":" + (x.afterColon + number));
    Unnest(x, rest);
    ReadKey(s, pos, x.key, value);
    var afterKey := pos + 2 + |Escape(x.key)|;
    NumberFirst(x, x.after + Tail(x, rest));
    ReadColon(s, afterKey, x.beforeColon, x.afterColon, number);
    ReadNumber(s, afterKey + |x.beforeColon| + 1 + |x.afterColon|, x, rest);
  }

  lemma NumberFirst(x: Item, rest: string)
    requires WellFormed(x)
    ensures x.digits + rest != "" && !IsSpace((x.digits + rest)[0])
  {
    assert x.digits[0] in x.digits;
  }

  lemma ReadEnd(s: string, pos: nat, end: string, clocks: Clocks)
    requires TextAt(s, pos, ItemsText([]) + end) && MayEnd([], end)
    ensures ParsePairs(s, pos, clocks) == Ok(clocks)
  {
    assert s[pos..] == end;
    assert end != "" ==> s[pos] == end[0];
  }

  lemma ItemsCons(items: seq<Item>, end: string)
    requires items != []
    ensures ItemsText(items) + end == ItemText(items[0]) + (ItemsText(items[1..]) + end)
  {
    hide ItemText;
    Regroup(ItemText(items[0]), ItemsText(items[1..]), end);
  }

  lemma {:induction false} ReadItems(s: string, pos: nat, items: seq<Item>, end: string, clocks: Clocks)
    requires TextAt(s, pos, ItemsText(items) + end) && MayEnd(items, end)
    requires forall i :: 0 <= i < |items| ==> WellFormed(items[i])
    ensures pos <= |s| && ParsePairs(s, pos, clocks) == Ok(Filled(clocks, items))
    decreases |items|
  {
    hide WellFormed;
    hide ItemText;
    hide ItemsText;
    hide ClockRead;
    hide ParsePairs;
    hide MayEnd;
    if items == [] {
      ReadEnd(s, pos, end, clocks);
    } else {
      ItemsCons(items, end);
      NextBegins(items, end);
      ReadItem(s, pos, items[0], ItemsText(items[1..]) + end, clocks);
      ReadItems(s, pos + |ItemText(items[0])|, items[1..], end, clocks[items[0].key := ClockRead(items[0])]);
    }
  }

  lemma NextBegins(items: seq<Item>, end: string)
    requires items != [] && MayEnd(items, end)
    ensures MayFollow(items[0], ItemsText(items[1..]) + end) && MayEnd(items[1..], end)
  {
  }

  lemma OpeningBrace(json: string, w: string, items: seq<Item>, end: string)
    requires Written(json, w, items, end)
    ensures json != "" && json[0] == '{' && SkipSpaces(json, 1) == 1 + |w| && TextAt(json, 1 + |w|, ItemsText(items) + end)
  {
    AfterHead(json, 0, "{", w + (ItemsText(items) + end));
    SkipAll(json, 1, w, ItemsText(items) + end);
  }

  lemma WrittenIsRead(json: string, w: string, items: seq<Item>, end: string)
    requires Written(json, w, items, end)
    ensures Parse(json) == Ok(Filled(map[], items))
  {
    OpeningBrace(json, w, items, end);
    ReadItems(json, 1 + |w|, items, end, map[]);
  }

  // ----- What is read is written ------------------------------------------------------------

  lemma {:induction false} SkippedSpaces(s: string, pos: nat)
    requires pos <= |s|
    ensures Spaces(s[pos..SkipSpaces(s, pos)])
    decreases |s| - pos
  {
    if pos < |s| && IsSpace(s[pos]) {
      SkippedSpaces(s, pos + 1);
      assert s[pos..SkipSpaces(s, pos)] == [s[pos]] + s[pos + 1..SkipSpaces(s, pos)];
    }
  }

  lemma {:induction false} KeyRead(s: string, pos: nat, acc: string) returns (key: string)
    requires pos <= |s| && ParseKey(s, pos, acc).Ok?
    ensures ParseKey(s, pos, acc).value.0 == acc + key
    ensures s[pos..ParseKey(s, pos, acc).value.1] == Escape(key) + "\""
    decreases |s| - pos
  {
    var end := ParseKey(s, pos, acc).value.1;
    if s[pos] == '"' {
      key := "";
      assert s[pos..end] == "\"" && acc + key == acc;
    } else {
      var step := if s[pos] == '\\' then 2 else 1;
      var c := s[pos + step - 1];
      var rest := KeyRead(s, pos + step, acc + [c]);
      key := [c] + rest;
      assert acc + [c] + rest == acc + key;
      assert s[pos..end] == s[pos..pos + step] + s[pos + step..end];
      assert key[1..] == rest && Escape(key) == s[pos..pos + step] + Escape(rest);
    }
  }

  lemma {:induction false} DigitsRead(s: string, pos: nat, value: u64)
    requires pos <= |s|
    ensures var end := ParseDigits(s, pos, value).1;
      && (forall c :: c in s[pos..end] ==> IsDigit(c)) && (end < |s| ==> !IsDigit(s[end]))
      && (pos < |s| && IsDigit(s[pos]) ==> pos < end)
    decreases |s| - pos
  {
    if pos < |s| && IsDigit(s[pos]) {
      DigitsRead(s, pos + 1, PushDigit(value, s[pos]));
      var end := ParseDigits(s, pos, value).1;
      assert s[pos..end] == [s[pos]] + s[pos + 1..end];
    }
  }

  lemma ValueRead(s: string, pos: nat) returns (ds: string)
    requires pos < |s| && IsDigit(s[pos])
    ensures var end := ParseDigits(s, pos, 0).1;
      ds == s[pos..end] && Digits(ds) && ParseDigits(s, pos, 0).0 == Value(ds) % TWO_64
  {
    DigitsRead(s, pos, 0);
    var end := ParseDigits(s, pos, 0).1;
    ds := s[pos..end];
    var rest := s[end..];
    assert s[pos..] == ds + rest;
    ReadDigits(s, pos, ds, rest);
  }

  /** The first entry of what was accepted. */
  lemma ItemRead(s: string, pos: nat, clocks: Clocks) returns (x: Item, next: nat)
    requires pos < |s| && s[pos] != '}' && ParsePairs(s, pos, clocks).Ok?
    ensures WellFormed(x) && pos < next <= |s| && s[pos..next] == ItemText(x) && MayFollow(x, s[next..])
    ensures ParsePairs(s, pos, clocks) == ParsePairs(s, next, clocks[x.key := ClockRead(x)])
  {
    hide SkipSpaces;
    hide ParseDigits;
    hide ParseKey;
    hide ItemText;
    hide Escape;
    hide Value;
    hide Spaces;
    hide Digits;
    var afterKey := ParseKey(s, pos + 1, "").value.1;
    var key := KeyRead(s, pos + 1, "");
    NoAccumulator(key);
    var colon := SkipSpaces(s, afterKey);
    SkippedSpaces(s, afterKey);
    var start := SkipSpaces(s, colon + 1);
    SkippedSpaces(s, colon + 1);
    var ds := ValueRead(s, start);
    var afterValue := ParseDigits(s, start, 0).1;
    var last := SkipSpaces(s, afterValue);
    SkippedSpaces(s, afterValue);
    var comma := s[last] == ',';
    next := if comma then last + 1 else last;
    x := Item(key, s[afterKey..colon], s[colon + 1..start], ds, s[afterValue..last], comma);
    assert ParsePairs(s, pos, clocks) == ParsePairs(s, next, clocks[x.key := ClockRead(x)]);
    Pieces(s, pos, afterKey, colon, start, afterValue, last, comma, x);
  }

  lemma NoAccumulator(key: string)
    ensures "" + key == key
  {
  }

  lemma Cut(s: string, a: nat, b: nat, c: nat)
    requires a <= b <= c <= |s|
    ensures s[a..c] == s[a..b] + s[b..c]
  {
  }

  lemma Pieces(
    s: string, pos: nat, afterKey: nat, colon: nat, start: nat, afterValue: nat, last: nat, comma: bool, x: Item)
    requires pos < afterKey <= colon < start <= afterValue <= last < |s|
    requires s[pos] == '"' && s[colon] == ':' && comma == (s[last] == ',')
    requires s[pos + 1..afterKey] == Escape(x.key) + "\""
    requires x == Item(x.key, s[afterKey..colon], s[colon + 1..start], s[start..afterValue], s[afterValue..last], comma)
    ensures s[pos..if comma then last + 1 else last] == ItemText(x)
  {
    hide Escape;
    hide ColonText;
    var next := if comma then last + 1 else last;
    PiecesValue(s, afterKey, colon, start, afterValue, last, comma, x);
    Cut(s, pos, pos + 1, next);
    Cut(s, pos + 1, afterKey, next);
    CharAt(s, pos);
    Regroup(Escape(x.key), "\"", ColonText(x));
  }

  lemma CharAt(s: string, i: nat)
    requires i < |s|
    ensures s[i..i + 1] == [s[i]]
  {
  }

  lemma PiecesValue(
    s: string, afterKey: nat, colon: nat, start: nat, afterValue: nat, last: nat, comma: bool, x: Item)
    requires afterKey <= colon < start <= afterValue <= last < |s|
    requires s[colon] == ':' && comma == (s[last] == ',')
    requires x == Item(x.key, s[afterKey..colon], s[colon + 1..start], s[start..afterValue], s[afterValue..last], comma)
    ensures s[afterKey..if comma then last + 1 else last] == ColonText(x)
  {
    var next := if comma then last + 1 else last;
    Cut(s, afterKey, colon, next);
    Cut(s, colon, colon + 1, next);
    Cut(s, colon + 1, start, next);
    Cut(s, start, afterValue, next);
    Cut(s, afterValue, last, next);
    CharAt(s, colon);
    if comma {
      CharAt(s, last);
    } else {
      assert s[last..last] == "";
    }
  }

  lemma {:induction false} ItemsRead(s: string, pos: nat, clocks: Clocks) returns (items: seq<Item>, end: string)
    requires pos <= |s| && ParsePairs(s, pos, clocks).Ok?
    ensures (forall i :: 0 <= i < |items| ==> WellFormed(items[i])) && MayEnd(items, end)
    ensures s[pos..] == ItemsText(items) + end && ParsePairs(s, pos, clocks) == Ok(Filled(clocks, items))
    decreases |s| - pos
  {
    hide ItemText;
    hide WellFormed;
    hide ClockRead;
    if pos == |s| || s[pos] == '}' {
      items, end := [], s[pos..];
    } else {
      var x, next := ItemRead(s, pos, clocks);
      var rest;
      rest, end := ItemsRead(s, next, clocks[x.key := ClockRead(x)]);
      items := [x] + rest;
      assert items[1..] == rest && s[pos..] == s[pos..next] + s[next..];
      assert ItemText(x) + ItemsText(rest) + end == ItemText(x) + (ItemsText(rest) + end);
    }
  }

  lemma ReadIsWritten(json: string) returns (w: string, items: seq<Item>, end: string)
    requires Parse(json).Ok?
    ensures Written(json, w, items, end) && Parse(json) == Ok(Filled(map[], items))
  {
    hide ItemsText;
    hide WellFormed;
    hide Spaces;
    hide MayEnd;
    hide Filled;
    hide SkipSpaces;
    hide ParsePairs;
    var pos := SkipSpaces(json, 1);
    SkippedSpaces(json, 1);
    w := json[1..pos];
    items, end := ItemsRead(json, pos, map[]);
    BraceFirst(json, pos);
  }

  lemma BraceFirst(json: string, pos: nat)
    requires 1 <= pos <= |json| && json[0] == '{'
    ensures json == "{" + (json[1..pos] + json[pos..])
  {
    Cut(json, 1, pos, |json|);
    assert json == [json[0]] + json[1..];
  }

  /** The parser accepts exactly what is written so, and reads it as what it says. */
  lemma AcceptedExactly(json: string, c: Clocks)
    ensures Parse(json) == Ok(c)
      <==> exists w, items, end :: Written(json, w, items, end) && c == Filled(map[], items)
  {
    hide Parse;
    hide Filled;
    if Parse(json) == Ok(c) {
      var w, items, end := ReadIsWritten(json);
      assert Written(json, w, items, end) && c == Filled(map[], items);
    }
    forall w, items, end | Written(json, w, items, end)
      ensures Parse(json) == Ok(Filled(map[], items))
    {
      WrittenIsRead(json, w, items, end);
    }
  }

  // ----- What is accepted besides printed texts ---------------------------------------------

  /** The comma between two entries may be missing. */
  lemma CommaMayBeMissing()
    ensures Parse("{\"a\":1\"b\":2}") == Ok(map["a" := 1, "b" := 2])
  {
    var items := [Item("a", "", "", "1", "", false), Item("b", "", "", "2", "", false)];
    TwoItems(items);
    assert Written("{\"a\":1\"b\":2}", "", items, "}");
    WrittenIsRead("{\"a\":1\"b\":2}", "", items, "}");
    assert Filled(map[], items) == map["a" := 1]["b" := 2];
  }

  lemma TwoItems(items: seq<Item>)
    requires items == [Item("a", "", "", "1", "", false), Item("b", "", "", "2", "", false)]
    ensures ItemsText(items) == "\"a\":1\"b\":2"
    ensures WellFormed(items[0]) && WellFormed(items[1]) && ClockRead(items[0]) == 1 && ClockRead(items[1]) == 2
  {
    OneDigit('1');
    OneDigit('2');
    assert items[1..] == [items[1]] && items[1..][1..] == [];
    assert ItemText(items[0]) == "\"a\":1" && ItemText(items[1]) == "\"b\":2";
    assert ItemsText(items[1..]) == "\"b\":2";
  }

  lemma OneDigit(c: char)
    requires IsDigit(c)
    ensures Digits([c]) && Value([c]) == DigitValue(c)
  {
    assert [c][..0] == "" && Value("") == 0;
  }

  /** The object may be left open after a comma. */
  lemma MayStayOpen()
    ensures Parse("{\"a\":1,") == Ok(map["a" := 1])
  {
    hide *;
    var x := Item("a", "", "", "1", "", true);
    OpenItem(x);
    WrittenIsRead("{\"a\":1,", "", [x], "");
  }

  lemma OpenItem(x: Item)
    requires x == Item("a", "", "", "1", "", true)
    ensures Written("{\"a\":1,", "", [x], "") && Filled(map[], [x]) == map["a" := 1]
  {
    OneDigit('1');
    assert ItemText(x) == "\"a\":1,";
    assert [x][1..] == [];
    OneItem(x);
    assert ItemsText([x]) == "\"a\":1,";
  }

  lemma OneItem(x: Item)
    ensures ItemsText([x]) == ItemText(x)
  {
    hide ItemText;
    assert [x][1..] == [];
  }

  /** White space after a comma is refused, whatever comes before and after it. */
  lemma NoSpaceAfterComma(json: string, w: string, x: Item, rest: string)
    requires Spaces(w) && WellFormed(x) && x.comma && rest != "" && IsSpace(rest[0])
    requires json == "{" + (w + (ItemText(x) + rest))
    ensures Parse(json).Err?
  {
    hide ParseKey;
    hide ParseDigits;
    hide ClockRead;
    hide WellFormed;
    hide TextAt;
    hide SkipSpaces;
    hide Spaces;
    hide ItemText;
    WholeText(json, "{" + (w + (ItemText(x) + rest)));
    OneChar(json, 0, "{", w + (ItemText(x) + rest));
    ItemBegins(x, rest);
    SkipAll(json, 1, w, ItemText(x) + rest);
    ReadItem(json, 1 + |w|, x, rest, map[]);
    FirstAt(json, 1 + |w| + |ItemText(x)|, rest);
    SpaceIsNoKey(json, 1 + |w| + |ItemText(x)|, map[x.key := ClockRead(x)]);
  }

  lemma WholeText(s: string, text: string)
    requires s == text
    ensures TextAt(s, 0, text)
  {
  }

  lemma ItemBegins(x: Item, rest: string)
    ensures ItemText(x) + rest != "" && !IsSpace((ItemText(x) + rest)[0])
  {
    hide ColonText;
    hide Escape;
  }

  lemma SpaceIsNoKey(s: string, pos: nat, clocks: Clocks)
    requires pos < |s| && IsSpace(s[pos])
    ensures ParsePairs(s, pos, clocks).Err?
  {
  }
}
