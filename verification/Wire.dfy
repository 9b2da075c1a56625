/**
 The wire protocol: every item is its length in decimal, a period and its bytes; items are separated by
 commas and the last one is followed by a semicolon.  Strings are bytes.
 */
module Wire {
  import opened Option
  import opened Streams
  import opened Decimal

  const NUL := '\0'
  const ULLONG_MAX := 0xffff_ffff_ffff_ffff

  // ----- Encoding

  function Chunk(x: string): string {
    Print(|x|) + "." + x
  }

  function Encoded(xs: seq<string>): (s: string)
    requires xs != []
    ensures s != [] && s[|s| - 1] == ';'
  {
    if |xs| == 1 then Chunk(xs[0]) + ";" else Chunk(xs[0]) + "," + Encoded(xs[1..])
  }

  /** The example in the protocol's documentation. */
  lemma DocumentedExample()
    ensures Encoded(["connect", "emu1"]) == "7.connect,4.emu1;"
  {
    ExampleChunks();
    hide Chunk;
    assert ["connect", "emu1"][1..] == ["emu1"];
    assert Encoded(["emu1"]) == "4.emu1;";
  }

  lemma ExampleChunks()
    ensures Chunk("connect") == "7.connect" && Chunk("emu1") == "4.emu1"
  {
    assert [Digit(7)] == "7" && [Digit(4)] == "4";
  }

  /** The running output of the encoders: a comma after every item. */
  function Listed(xs: seq<string>): string {
    if xs == [] then [] else Listed(xs[..|xs| - 1]) + Chunk(xs[|xs| - 1]) + ","
  }

  lemma {:induction false} ListedFront(x: string, xs: seq<string>)
    ensures Listed([x] + xs) == Chunk(x) + "," + Listed(xs)
  {
    hide Chunk;
    if xs == [] {
      assert ([x] + xs)[..0] == [];
      assert Listed([x] + xs) == Listed([]) + Chunk(x) + ",";
    } else {
      var n := |xs| - 1;
      assert ([x] + xs)[..n + 1] == [x] + xs[..n];
      ListedFront(x, xs[..n]);
      var a, b := Chunk(x) + ",", Chunk(xs[n]) + ",";
      assert (a + Listed(xs[..n])) + b == a + (Listed(xs[..n]) + b);
    }
  }

  /** Overwriting the last comma turns the running output into the message. */
  lemma {:induction false} LastCommaBecomesSemicolon(xs: seq<string>)
    requires xs != []
    ensures Listed(xs) != [] && Listed(xs)[|Listed(xs)| - 1 := ';'] == Encoded(xs)
  {
    hide Chunk;
    assert xs == [xs[0]] + xs[1..];
    ListedFront(xs[0], xs[1..]);
    if |xs| > 1 {
      LastCommaBecomesSemicolon(xs[1..]);
    }
  }

  /** The vector form. */
  method Encode(chunks: seq<string>) returns (out: string)
    requires chunks != []
    ensures out == Encoded(chunks)
  {
    out := "";
    for n := 0 to |chunks|
      invariant out == Listed(chunks[..n])
    {
      out := out + Print(|chunks[n]|);
      out := out + ".";
      out := out + chunks[n];
      out := out + ",";
      assert chunks[..n + 1][..n] == chunks[..n];
    }
    assert chunks[..|chunks|] == chunks;
    LastCommaBecomesSemicolon(chunks);
    out := out[|out| - 1 := ';'];
  }

  /** What the variadic form takes: anything that can be printed to a stream. */
  datatype Item = Text(text: string) | Number(number: int) | Flag(flag: bool)

  function Rendered(item: Item): string {
    match item
    case Text(text) => text
    case Number(n) => if n < 0 then "-" + Print(-n) else Print(n)
    case Flag(b) => if b then "1" else "0"
  }

  /** A number's text is its digits, with a minus sign in front of negative ones only; a flag's is 1 or 0. */
  lemma RenderedMeans(n: int, b: bool)
    ensures var s := Rendered(Number(n));
      s != [] && if n < 0 then s[0] == '-' && AllDigits(s[1..]) && Value(s[1..]) == -n
                 else AllDigits(s) && Value(s) == n
    ensures Rendered(Flag(b)) == if b then "1" else "0"
  {
    ValueOfPrint(if n < 0 then -n else n);
  }

  function RenderedAll(items: seq<Item>): (xs: seq<string>)
    ensures |xs| == |items|
  {
    seq(|items|, i requires 0 <= i < |items| => Rendered(items[i]))
  }

  method EncodeItem(encoded: string, item: Item) returns (out: string)
    ensures out == encoded + Chunk(Rendered(item)) + ","
  {
    var itemAsString := Rendered(item);
    out := encoded + Print(|itemAsString|);
    out := out + ".";
    out := out + itemAsString;
    out := out + ",";
  }

  method EncodeImpl(encoded: string, items: seq<Item>) returns (out: string)
    requires items != []
    ensures out == encoded + Listed(RenderedAll(items))
    decreases |items|
  {
    hide Chunk, Rendered;
    out := EncodeItem(encoded, items[0]);
    ListedFront(Rendered(items[0]), RenderedAll(items[1..]));
    assert RenderedAll(items) == [Rendered(items[0])] + RenderedAll(items[1..]);
    if |items| > 1 {
      out := EncodeImpl(out, items[1..]);
    } else {
      assert RenderedAll(items[1..]) == [];
    }
  }

  /** The variadic form agrees with the vector form. */
  method EncodeVariadic(items: seq<Item>) returns (out: string)
    requires items != []
    ensures out == Encoded(RenderedAll(items))
  {
    hide *;
    out := EncodeImpl("", items);
    LastCommaBecomesSemicolon(RenderedAll(items));
    out := out[|out| - 1 := ';'];
  }

  // ----- Reading a number from a stream; the stream is what is left of the input

  function DigitCount(s: string): (n: nat)
    ensures n <= |s| && AllDigits(s[..n]) && (n < |s| ==> !IsDigit(s[n]))
  {
    if s == [] || !IsDigit(s[0]) then 0 else
      var n := DigitCount(s[1..]);
      assert s[..n + 1] == [s[0]] + s[1..][..n];
      1 + n
  }

  /** iss >> length for an unsigned 64-bit integer: white space, an optional sign, digits.  A minus sign
      negates modulo 2^64; no digits or a value that does not fit is a failure. */
  function ReadNumber(s: string): (r: Option<(nat, string)>)
    ensures r.Some? ==> |r.value.1| < |s|
  {
    var t := SkipSpaces(s);
    var signed := t != [] && (t[0] == '+' || t[0] == '-');
    var u := if signed then t[1..] else t;
    var n := DigitCount(u);
    if n == 0 || Value(u[..n]) > ULLONG_MAX then None
    else
      var v := Value(u[..n]);
      Some((if signed && t[0] == '-' then (ULLONG_MAX + 1 - v) % (ULLONG_MAX + 1) else v, u[n..]))
  }

  // ----- Decoding

  /** std::string(content.data()): everything before the first NUL. */
  function CString(s: string): (c: string)
    ensures c <= s && NUL !in c
    ensures NUL !in s ==> c == s
    ensures c == s ==> NUL !in s
  {
    if s == [] || s[0] == NUL then [] else [s[0]] + CString(s[1..])
  }

  const LENGTH_LIMIT := 1000

  function DecodeRest(s: string, output: seq<string>): seq<string>
    decreases |s|
  {
    match ReadNumber(s)
    case None => []
    case Some((length, t)) =>
      if length >= LENGTH_LIMIT || t == [] || t[0] != '.' || length >= |t[1..]| then []
      else
        var content := t[1..];
        var output' := output + [CString(content[..length])];
        if content[length] == ';' then output'
        else if content[length] == ',' then DecodeRest(content[length + 1..], output')
        else []
  }

  function Decoded(input: string): seq<string>
    requires input != []
  {
    if input[|input| - 1] != ';' then [] else DecodeRest(input, [])
  }

  method Decode(input: string) returns (output: seq<string>)
    requires input != []
    ensures output == Decoded(input)
  {
    hide ReadNumber, CString;
    output := [];
    if input[|input| - 1] != ';' {
      return;
    }
    var iss := input;
    while true
      invariant DecodeRest(iss, output) == Decoded(input)
      decreases |iss|
    {
      var number := ReadNumber(iss);
      if number.None? || number.value.0 >= LENGTH_LIMIT {
        return [];
      }
      var length := number.value.0;
      iss := number.value.1;
      if iss == [] || iss[0] != '.' {
        return [];
      }
      iss := iss[1..];
      // a read that reaches the end of the input leaves nothing to peek at
      if length >= |iss| {
        return [];
      }
      output := output + [CString(iss[..length])];
      var separator := iss[length];
      if separator != ',' {
        if separator == ';' {
          return;
        }
        return [];
      }
      iss := iss[length + 1..];
    }
  }

  // ----- Round trip

  lemma {:induction false} DigitsEnd(d: string, rest: string)
    requires AllDigits(d) && (rest == [] || !IsDigit(rest[0]))
    ensures DigitCount(d + rest) == |d|
  {
    if d == [] {
      assert d + rest == rest;
    } else {
      assert (d + rest)[1..] == d[1..] + rest;
      DigitsEnd(d[1..], rest);
    }
  }

  lemma ReadPrinted(n: nat, rest: string)
    requires rest != [] && rest[0] == '.'
    ensures ReadNumber(Print(n) + rest) == if n > ULLONG_MAX then None else Some((n, rest))
  {
    var d := Print(n);
    ValueOfPrint(n);
    DigitsEnd(d, rest);
    assert IsDigit(d[0]) && (d + rest)[0] == d[0];
    assert (d + rest)[..|d|] == d && (d + rest)[|d|..] == rest;
  }

  lemma TakeContent(x: string, separator: char, rest: string)
    ensures var content := x + ([separator] + rest);
      ("." + content)[1..] == content &&
      content[..|x|] == x && content[|x|] == separator && content[|x| + 1..] == rest
  {}

  /** What happens to one item once its length is read. */
  lemma DecodeOne(s: string, x: string, separator: char, rest: string, output: seq<string>)
    requires |x| < LENGTH_LIMIT ==> ReadNumber(s) == Some((|x|, "." + (x + ([separator] + rest))))
    requires |x| >= LENGTH_LIMIT ==> ReadNumber(s).None? || ReadNumber(s).value.0 == |x|
    ensures DecodeRest(s, output) ==
            if |x| >= LENGTH_LIMIT then []
            else if separator == ';' then output + [CString(x)]
            else if separator == ',' then DecodeRest(rest, output + [CString(x)])
            else []
  {
    hide CString, ReadNumber;
    TakeContent(x, separator, rest);
  }

  /** One encoded item and its separator are decoded, or refused for their length. */
  lemma DecodeChunk(x: string, separator: char, rest: string, output: seq<string>)
    ensures DecodeRest(Chunk(x) + [separator] + rest, output) ==
            if |x| >= LENGTH_LIMIT then []
            else if separator == ';' then output + [CString(x)]
            else if separator == ',' then DecodeRest(rest, output + [CString(x)])
            else []
  {
    hide DecodeRest, ReadNumber, Print;
    var t := "." + (x + ([separator] + rest));
    ReadPrinted(|x|, t);
    assert Chunk(x) + [separator] + rest == Print(|x|) + t;
    DecodeOne(Print(|x|) + t, x, separator, rest, output);
  }

  predicate AllShort(xs: seq<string>) {
    forall i | 0 <= i < |xs| :: |xs[i]| < LENGTH_LIMIT
  }

  predicate NulFree(xs: seq<string>) {
    forall i | 0 <= i < |xs| :: NUL !in xs[i]
  }

  function CStrings(xs: seq<string>): (ys: seq<string>)
    ensures |ys| == |xs|
  {
    seq(|xs|, i requires 0 <= i < |xs| => CString(xs[i]))
  }

  lemma AllShortSplit(xs: seq<string>)
    requires xs != []
    ensures AllShort(xs) <==> |xs[0]| < LENGTH_LIMIT && AllShort(xs[1..])
  {
    assert forall i | 0 < i < |xs| :: xs[i] == xs[1..][i - 1];
  }

  lemma CStringsSplit(xs: seq<string>)
    requires xs != []
    ensures CStrings(xs) == [CString(xs[0])] + CStrings(xs[1..])
  {
    hide CString;
  }

  lemma {:induction false} DecodeEncoded(xs: seq<string>, rest: string, output: seq<string>)
    requires xs != []
    ensures DecodeRest(Encoded(xs) + rest, output) == if AllShort(xs) then output + CStrings(xs) else []
  {
    hide Chunk, CString, CStrings, DecodeRest;
    CStringsSplit(xs);
    if |xs| == 1 {
      DecodeChunk(xs[0], ';', rest, output);
      assert CStrings(xs[1..]) == [];
    } else {
      var tail := Encoded(xs[1..]) + rest;
      DecodeChunk(xs[0], ',', tail, output);
      assert Encoded(xs) + rest == Chunk(xs[0]) + "," + tail;
      DecodeEncoded(xs[1..], rest, output + [CString(xs[0])]);
      AllShortSplit(xs);
    }
  }

  lemma CStringsKeep(xs: seq<string>)
    ensures CStrings(xs) == xs <==> NulFree(xs)
  {}

  /** Decoding gives an encoded list back exactly when every item is short and free of NUL bytes. */
  lemma RoundTrip(xs: seq<string>)
    requires xs != []
    ensures Decoded(Encoded(xs)) == xs <==> AllShort(xs) && NulFree(xs)
  {
    hide DecodeRest, Encoded, CStrings, NulFree, AllShort;
    DecodeEncoded(xs, [], []);
    assert Encoded(xs) + [] == Encoded(xs);
    assert [] + CStrings(xs) == CStrings(xs);
    CStringsKeep(xs);
  }

  /** What decoding accepts is decoded to short, NUL-free items. */
  lemma {:induction false} DecodeRestClean(s: string, output: seq<string>)
    requires AllShort(output) && NulFree(output)
    ensures AllShort(DecodeRest(s, output)) && NulFree(DecodeRest(s, output))
    decreases |s|
  {
    hide ReadNumber;
    match ReadNumber(s)
    case None =>
    case Some((length, t)) =>
      if length < LENGTH_LIMIT && t != [] && t[0] == '.' && length < |t[1..]| && t[1..][length] == ',' {
        ReadNumberShrinks(s);
        DecodeRestClean(t[1..][length + 1..], output + [CString(t[1..][..length])]);
      }
  }

  lemma ReadNumberShrinks(s: string)
    ensures ReadNumber(s).Some? ==> |ReadNumber(s).value.1| < |s|
  {}

  /** Decoding normalises: whatever it accepts, however oddly written, encodes to something it gives back. */
  lemma Normalises(input: string)
    requires input != [] && Decoded(input) != []
    ensures Decoded(Encoded(Decoded(input))) == Decoded(input)
  {
    DecodeRestClean(input, []);
    RoundTrip(Decoded(input));
  }

  // ----- What is accepted

  /** An item as it may be written: white space, a sign, digits, a period and the bytes. */
  datatype Part = Part(gap: string, sign: string, digits: string, content: string)

  /** The number that a part states for its length; a minus sign counts down from 2^64. */
  function Stated(part: Part): nat
    requires AllDigits(part.digits)
  {
    var v := Value(part.digits);
    if part.sign == "-" && v > 0 && v <= ULLONG_MAX then ULLONG_MAX + 1 - v else v
  }

  predicate IsNumeral(part: Part) {
    IsGap(part.gap) && part.sign in {"", "+", "-"} && part.digits != [] && AllDigits(part.digits) &&
    Value(part.digits) <= ULLONG_MAX
  }

  function Numeral(part: Part): string {
    part.gap + part.sign + part.digits
  }

  predicate WellFormed(part: Part) {
    IsNumeral(part) && Stated(part) == |part.content| < LENGTH_LIMIT
  }

  /** Parts with commas between them and a semicolon behind the last. */
  function Written(parts: seq<Part>): string
    requires parts != []
  {
    Numeral(parts[0]) + "." + parts[0].content + if |parts| == 1 then ";" else "," + Written(parts[1..])
  }

  function Contents(parts: seq<Part>): (xs: seq<string>)
    ensures |xs| == |parts|
  {
    seq(|parts|, i requires 0 <= i < |parts| => parts[i].content)
  }

  lemma {:induction false} SkipSpacesGap(gap: string, s: string)
    requires IsGap(gap) && s != [] && !IsSpace(s[0])
    ensures SkipSpaces(gap + s) == s
  {
    if gap == [] {
      assert gap + s == s;
    } else {
      SkipSpacesGap(gap[1..], s);
      assert (gap + s)[1..] == gap[1..] + s;
    }
  }

  lemma {:induction false} SkippedGap(s: string) returns (gap: string)
    ensures IsGap(gap) && s == gap + SkipSpaces(s)
  {
    if s != [] && IsSpace(s[0]) {
      var others := SkippedGap(s[1..]);
      gap := [s[0]] + others;
      hide SkipSpaces;
      assert s == [s[0]] + (others + SkipSpaces(s[1..]));
    } else {
      gap := [];
    }
  }

  lemma SplitSigned(sign: string, d: string, rest: string)
    requires sign in {"", "+", "-"} && d != [] && AllDigits(d) && rest != [] && rest[0] == '.'
    ensures var t := sign + (d + rest); var signed := t[0] == '+' || t[0] == '-';
      !IsSpace(t[0]) && (signed <==> sign != "") && (signed ==> sign == [t[0]]) &&
      (if signed then t[1..] else t) == d + rest && DigitCount(d + rest) == |d| &&
      (d + rest)[..|d|] == d && (d + rest)[|d|..] == rest
  {
    var t := sign + (d + rest);
    assert IsDigit(d[0]) && t[0] == if sign == "" then d[0] else sign[0];
    DigitsEnd(d, rest);
  }

  lemma NumeralBefore(part: Part, rest: string)
    ensures Numeral(part) + rest == part.gap + (part.sign + (part.digits + rest))
  {
    var gap, sign, d := part.gap, part.sign, part.digits;
    assert gap + sign + d + rest == gap + sign + (d + rest);
  }

  lemma ReadSigned(s: string, sign: string, d: string, rest: string)
    requires SkipSpaces(s) == sign + (d + rest) && sign in {"", "+", "-"}
    requires d != [] && AllDigits(d) && Value(d) <= ULLONG_MAX && rest != [] && rest[0] == '.'
    ensures ReadNumber(s) == Some((Stated(Part("", sign, d, "")), rest))
  {
    hide Value, SkipSpaces, DigitCount, IsSpace, AllDigits, IsDigit;
    SplitSigned(sign, d, rest);
  }

  /** A numeral before a period is read as the number it states. */
  lemma ReadNumeral(part: Part, rest: string)
    requires IsNumeral(part) && rest != [] && rest[0] == '.'
    ensures ReadNumber(Numeral(part) + rest) == Some((Stated(part), rest))
  {
    hide Value, SkipSpaces, IsGap, IsSpace, AllDigits, IsDigit, ReadNumber, Numeral;
    SplitSigned(part.sign, part.digits, rest);
    SkipSpacesGap(part.gap, part.sign + (part.digits + rest));
    NumeralBefore(part, rest);
    ReadSigned(Numeral(part) + rest, part.sign, part.digits, rest);
  }

  /** Whatever number is read was written as a numeral. */
  lemma NumeralRead(s: string) returns (part: Part)
    requires ReadNumber(s).Some?
    ensures IsNumeral(part) && Stated(part) == ReadNumber(s).value.0
    ensures s == Numeral(part) + ReadNumber(s).value.1
  {
    hide Value, SkipSpaces, DigitCount, IsGap, IsSpace, AllDigits, IsDigit, Numeral;
    var t := SkipSpaces(s);
    var gap := SkippedGap(s);
    var signed := t != [] && (t[0] == '+' || t[0] == '-');
    var u := if signed then t[1..] else t;
    var n := DigitCount(u);
    part := Part(gap, if signed then [t[0]] else "", u[..n], []);
    SignedRead(part, gap, t, signed, u, n);
  }

  lemma SignedRead(part: Part, gap: string, t: string, signed: bool, u: string, n: nat)
    requires signed ==> t != []
    requires u == (if signed then t[1..] else t) && n <= |u|
    requires part == Part(gap, if signed then [t[0]] else "", u[..n], [])
    ensures gap + t == Numeral(part) + u[n..]
  {
    NumeralBefore(part, u[n..]);
    hide Numeral;
    assert u == u[..n] + u[n..];
    assert t == part.sign + u;
  }

  /** One well-formed part and its separator are decoded. */
  lemma DecodePart(part: Part, separator: char, rest: string, output: seq<string>)
    requires WellFormed(part) && separator in {',', ';'}
    ensures var output' := output + [CString(part.content)];
      DecodeRest(Numeral(part) + "." + part.content + ([separator] + rest), output) ==
      if separator == ';' then output' else DecodeRest(rest, output')
  {
    var x := part.content;
    var t := "." + (x + ([separator] + rest));
    ReadNumeral(part, t);
    hide DecodeRest, CString, ReadNumber, IsNumeral, Stated, Numeral;
    assert Numeral(part) + "." + x + ([separator] + rest) == Numeral(part) + t;
    DecodeOne(Numeral(part) + t, x, separator, rest, output);
  }

  lemma {:induction false} DecodeWritten(parts: seq<Part>, rest: string, output: seq<string>)
    requires parts != [] && forall i | 0 <= i < |parts| :: WellFormed(parts[i])
    ensures DecodeRest(Written(parts) + rest, output) == output + CStrings(Contents(parts))
  {
    hide WellFormed, Numeral, DecodeRest, CString, CStrings;
    var first := parts[0];
    CStringsSplit(Contents(parts));
    assert Contents(parts)[1..] == Contents(parts[1..]);
    if |parts| == 1 {
      DecodePart(first, ';', rest, output);
      assert Written(parts) + rest == Numeral(first) + "." + first.content + ([';'] + rest);
      assert CStrings(Contents(parts[1..])) == [];
    } else {
      var tail := Written(parts[1..]) + rest;
      DecodePart(first, ',', tail, output);
      assert Written(parts) + rest == Numeral(first) + "." + first.content + ([','] + tail);
      DecodeWritten(parts[1..], rest, output + [CString(first.content)]);
    }
  }

  /** Input that is not refused begins with well-formed parts. */
  lemma {:induction false} WrittenDecoded(s: string, output: seq<string>) returns (parts: seq<Part>, rest: string)
    requires DecodeRest(s, output) != []
    ensures parts != [] && forall i | 0 <= i < |parts| :: WellFormed(parts[i])
    ensures s == Written(parts) + rest
    decreases |s|
  {
    hide Numeral, IsNumeral, Stated, CString, ReadNumber;
    var part := NumeralRead(s);
    var (length, t) := ReadNumber(s).value;
    var content := t[1..];
    var x, behind := content[..length], content[length + 1..];
    var first := part.(content := x);
    SameNumeral(part, x);
    Pieces(Numeral(first), t, length);
    if content[length] == ';' {
      parts, rest := [first], behind;
    } else {
      ReadNumberShrinks(s);
      var others;
      others, rest := WrittenDecoded(behind, output + [CString(x)]);
      hide DecodeRest;
      parts := [first] + others;
      assert parts[1..] == others;
      Joined(Numeral(first) + "." + x, Written(others), rest);
    }
  }

  lemma Pieces(numeral: string, t: string, length: nat)
    requires t != [] && t[0] == '.' && length < |t| - 1
    ensures var content := t[1..];
      numeral + t == numeral + "." + content[..length] + [content[length]] + content[length + 1..]
  {
    var content := t[1..];
    assert content == content[..length] + [content[length]] + content[length + 1..];
    assert t == "." + content;
  }

  lemma Joined(a: string, b: string, c: string)
    ensures a + "," + (b + c) == a + ("," + b) + c
  {}

  lemma SameNumeral(part: Part, x: string)
    ensures var first := part.(content := x);
      Numeral(first) == Numeral(part) && (IsNumeral(first) <==> IsNumeral(part)) &&
      (IsNumeral(part) ==> Stated(first) == Stated(part))
  {}

  /** Input that ends with a semicolon and begins with these well-formed parts. */
  ghost predicate Accepts(input: string, parts: seq<Part>) {
    input != [] && input[|input| - 1] == ';' &&
    parts != [] && (forall i | 0 <= i < |parts| :: WellFormed(parts[i])) && Written(parts) <= input
  }

  /** Exactly what is accepted, and as what: the bytes of each part up to their first NUL. */
  lemma DecodedExact(input: string, ys: seq<string>)
    requires input != []
    ensures Decoded(input) == ys && ys != [] <==>
            exists parts :: Accepts(input, parts) && ys == CStrings(Contents(parts))
  {
    hide WellFormed, Written, DecodeRest, CStrings, Contents;
    if Decoded(input) == ys && ys != [] {
      var parts, rest := WrittenDecoded(input, []);
      AcceptedAs(input, parts);
      assert Accepts(input, parts) && ys == CStrings(Contents(parts));
    }
    forall parts | Accepts(input, parts) ensures Decoded(input) == CStrings(Contents(parts)) != [] {
      AcceptedAs(input, parts);
    }
  }

  lemma AcceptedAs(input: string, parts: seq<Part>)
    requires Accepts(input, parts)
    ensures Decoded(input) == CStrings(Contents(parts)) != []
  {
    hide WellFormed, DecodeRest, Written, CStrings, Contents;
    var rest := input[|Written(parts)|..];
    assert input == Written(parts) + rest;
    DecodeWritten(parts, rest, []);
    assert [] + CStrings(Contents(parts)) == CStrings(Contents(parts));
  }

  // ----- Prefix freedom

  lemma SameDigits(a: string, r: string, b: string, q: string)
    requires AllDigits(a) && AllDigits(b) && r != [] && q != [] && !IsDigit(r[0]) && !IsDigit(q[0])
    requires a + r <= b + q
    ensures a == b && r <= q
  {
    var s, t := a + r, b + q;
    assert t == a + t[|a|..] && t[|a|] == s[|a|];
    DigitsEnd(a, t[|a|..]);
    DigitsEnd(b, q);
    assert a == t[..|a|] == b;
    assert r == s[|a|..] && q == t[|a|..];
  }

  lemma SameLength(x: string, r: string, y: string, q: string)
    requires |x| == |y| && x + r <= y + q
    ensures x == y && r <= q
  {
    assert x == (x + r)[..|x|] == (y + q)[..|x|] == y;
    assert r == (x + r)[|x|..] && q == (y + q)[|x|..];
  }

  lemma ChunkPrefix(x: string, y: string, r: string, q: string)
    requires r != [] && q != [] && Chunk(x) + r <= Chunk(y) + q
    ensures x == y && r <= q
  {
    hide Print;
    ValueOfPrint(|x|);
    ValueOfPrint(|y|);
    var r', q' := "." + (x + r), "." + (y + q);
    assert Chunk(x) + r == Print(|x|) + r' && Chunk(y) + q == Print(|y|) + q';
    SameDigits(Print(|x|), r', Print(|y|), q');
    PrintInjective(|x|, |y|);
    SameLength(".", x + r, ".", y + q);
    SameLength(x, r, y, q);
  }

  /** What follows the first item of an encoded list. */
  function AfterFirst(xs: seq<string>): (r: string)
    requires xs != []
    ensures r != []
  {
    if |xs| == 1 then ";" else "," + Encoded(xs[1..])
  }

  lemma EncodedFirst(xs: seq<string>)
    requires xs != []
    ensures Encoded(xs) == Chunk(xs[0]) + AfterFirst(xs)
  {
    hide Chunk;
  }

  lemma AfterFirstPrefix(xs: seq<string>, ys: seq<string>)
    requires xs != [] && ys != [] && AfterFirst(xs) <= AfterFirst(ys)
    ensures |xs| == 1 <==> |ys| == 1
    ensures |xs| > 1 ==> Encoded(xs[1..]) <= Encoded(ys[1..])
  {
    hide Encoded;
    assert AfterFirst(xs)[0] == AfterFirst(ys)[0];
    if |xs| > 1 {
      SameLength(",", Encoded(xs[1..]), ",", Encoded(ys[1..]));
    }
  }

  /** No message is a proper prefix of another, and different lists have different messages. */
  lemma {:induction false} PrefixFree(xs: seq<string>, ys: seq<string>)
    requires xs != [] && ys != [] && Encoded(xs) <= Encoded(ys)
    ensures xs == ys
  {
    hide *;
    EncodedFirst(xs);
    EncodedFirst(ys);
    ChunkPrefix(xs[0], ys[0], AfterFirst(xs), AfterFirst(ys));
    AfterFirstPrefix(xs, ys);
    if |xs| > 1 {
      PrefixFree(xs[1..], ys[1..]);
    }
    assert xs == [xs[0]] + xs[1..] && ys == [ys[0]] + ys[1..];
  }
}
