/** The size check on chat bodies and what it has to do with the decoder's limit on lengths. */
module ChatSize {
  import opened Wire

  predicate IsAsciiStr(s: string) {
    forall i | 0 <= i < |s| :: ' ' <= s[i] <= '~'
  }

  predicate IsHex(c: char) {
    '0' <= c <= '9' || 'a' <= c <= 'f'
  }

  predicate HexAt(s: string, from: nat, to: nat) {
    to <= |s| && forall i | from <= i < to :: IsHex(s[i])
  }

  /** The length of the escape sequence at the start of s: \xXX, \uXXXX or \u{1XXXX}; 0 if there is none. */
  function EscapeLength(s: string): (n: nat)
    ensures n <= |s| && n <= 9
  {
    if |s| < 2 || s[0] != '\\' then 0
    else if s[1] == 'x' && HexAt(s, 2, 4) then 4
    else if s[1] == 'u' && HexAt(s, 2, 6) then 6
    else if s[1] == 'u' && |s| >= 9 && s[2] == '{' && s[3] == '1' && HexAt(s, 4, 8) && s[8] == '}' then 9
    else 0
  }

  const HEX := "0123456789abcdef"

  predicate HexString(h: string, width: nat) {
    |h| == width && forall i | 0 <= i < width :: h[i] in HEX
  }

  /** What the regular expression matches, written as its three alternatives. */
  ghost predicate IsEscape(e: string) {
    || (exists h :: HexString(h, 2) && e == "\\x" + h)
    || (exists h :: HexString(h, 4) && e == "\\u" + h)
    || (exists h :: HexString(h, 4) && e == "\\u{1" + h + "}")
  }

  lemma HexIs(c: char)
    ensures IsHex(c) <==> c in HEX
  {
    if IsHex(c) {
      var d := if c <= '9' then (c - '0') as int else (c - 'a') as int + 10;
      assert HEX[d] == c;
    }
  }

  lemma HexAtIs(s: string, from: nat, to: nat)
    requires from <= to <= |s|
    ensures HexAt(s, from, to) <==> HexString(s[from..to], to - from)
  {
    forall i | from <= i < to ensures IsHex(s[i]) <==> s[i] in HEX {
      HexIs(s[i]);
    }
    assert forall i | from <= i < to :: s[i] == s[from..to][i - from];
    hide IsHex;
  }

  lemma EscapeSplits(e: string, front: string, h: string, back: string)
    requires e == front + h + back
    ensures |e| == |front| + |h| + |back| && forall i | 0 <= i < |front| :: e[i] == front[i]
    ensures e[|front|..|front| + |h|] == h && forall i | 0 <= i < |back| :: e[|front| + |h| + i] == back[i]
  {}

  /** The length is that of the beginning that is an escape sequence; there is at most one. */
  lemma EscapeIs(s: string, k: nat)
    requires 0 < k <= |s|
    ensures EscapeLength(s) == k <==> IsEscape(s[..k])
  {
    if EscapeLength(s) == k {
      EscapeFound(s, k);
    }
    if IsEscape(s[..k]) {
      EscapeMatches(s, k);
    }
  }

  lemma EscapeFound(s: string, k: nat)
    requires 0 < k <= |s| && EscapeLength(s) == k
    ensures IsEscape(s[..k])
  {
    hide HexString;
    if k == 4 {
      HexAtIs(s, 2, 4);
      assert s[..4] == "\\x" + s[2..4];
    } else if k == 6 {
      HexAtIs(s, 2, 6);
      assert s[..6] == "\\u" + s[2..6];
    } else {
      HexAtIs(s, 4, 8);
      assert s[..9] == "\\u{1" + s[4..8] + "}";
    }
  }

  lemma EscapeMatches(s: string, k: nat)
    requires 0 < k <= |s| && IsEscape(s[..k])
    ensures EscapeLength(s) == k
  {
    var e := s[..k];
    if h: string :| HexString(h, 2) && e == "\\x" + h {
      EscapeSplits(e, "\\x", h, "");
      HexAtIs(s, 2, 4);
      assert s[2..4] == h;
    } else if h: string :| HexString(h, 4) && e == "\\u" + h {
      EscapeSplits(e, "\\u", h, "");
      HexAtIs(s, 2, 6);
      assert s[2..6] == h;
    } else {
      var h :| HexString(h, 4) && e == "\\u{1" + h + "}";
      EscapeSplits(e, "\\u{1", h, "}");
      HexAtIs(s, 4, 8);
      assert s[4..8] == h && s[2] == '{' && !IsHex(s[2]);
    }
  }

  /** The size after every escape sequence, from the left, is replaced by one character. */
  function EscapedSize(s: string): (n: nat)
    ensures n <= |s| <= 9 * n
  {
    if s == [] then 0
    else 1 + EscapedSize(s[if EscapeLength(s) == 0 then 1 else EscapeLength(s)..])
  }

  /** An escape sequence in front counts for one, whatever follows it. */
  lemma EscapeCounts(e: string, rest: string)
    requires IsEscape(e)
    ensures EscapedSize(e + rest) == 1 + EscapedSize(rest)
  {
    assert e != [];
    var s := e + rest;
    assert s[..|e|] == e && s[|e|..] == rest;
    EscapeIs(s, |e|);
  }

  /** So does a character where no escape sequence begins. */
  lemma CharacterCounts(s: string)
    requires s != [] && forall k | 0 < k <= |s| :: !IsEscape(s[..k])
    ensures EscapedSize(s) == 1 + EscapedSize(s[1..])
  {
    hide IsEscape, EscapeLength;
    if EscapeLength(s) > 0 {
      EscapeIs(s, EscapeLength(s));
    }
  }

  const WIDEST := "\\u{1aaaa}"

  function Widest(n: nat): (s: string)
    ensures |s| == 9 * n
  {
    if n == 0 then [] else WIDEST + Widest(n - 1)
  }

  lemma WidestEscape(rest: string)
    ensures EscapeLength(WIDEST + rest) == 9
  {
    var s := WIDEST + rest;
    assert s[0] == '\\' && s[1] == 'u' && s[2] == '{' && s[3] == '1' && s[8] == '}';
    assert s[4] == s[5] == s[6] == s[7] == 'a';
    assert !IsHex(s[2]);
  }

  lemma AsciiConcat(a: string, b: string)
    requires IsAsciiStr(a) && IsAsciiStr(b)
    ensures IsAsciiStr(a + b)
  {}

  lemma {:induction false} WidestSize(n: nat)
    ensures EscapedSize(Widest(n)) == n && IsAsciiStr(Widest(n))
  {
    hide IsAsciiStr, EscapeLength;
    if n == 0 {
      assert IsAsciiStr([]) by { EmptyIsAscii(); }
    } else {
      var rest := Widest(n - 1);
      WidestSize(n - 1);
      WidestEscape(rest);
      assert (WIDEST + rest)[9..] == rest;
      WidestIsAscii();
      AsciiConcat(WIDEST, rest);
    }
  }

  lemma EmptyIsAscii()
    ensures IsAsciiStr([])
  {}

  lemma WidestIsAscii()
    ensures IsAsciiStr(WIDEST)
  {}

  /** A chat message with this body reaches the chat handler. */
  predicate Arrives(body: string) {
    Decoded(Encoded(["chat", body])) == ["chat", body]
  }

  /** Every body that passes the handler's two checks gets through the decoder exactly when maxMessageSize
      is at most 111. */
  lemma SizeLimitsAgree(maxMessageSize: nat)
    ensures (forall body | IsAsciiStr(body) && EscapedSize(body) <= maxMessageSize :: Arrives(body)) <==>
            maxMessageSize <= 111
  {
    if maxMessageSize <= 111 {
      forall body | IsAsciiStr(body) && EscapedSize(body) <= maxMessageSize ensures Arrives(body) {
        RoundTrip(["chat", body]);
      }
    } else {
      var body := Widest(112);
      WidestSize(112);
      RoundTrip(["chat", body]);
      assert |["chat", body][1]| == 1008;
      assert !Arrives(body);
    }
  }
}
