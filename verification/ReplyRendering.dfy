/**
 The bounded, UTF-8-safe rendering of a Console reply. Text is a sequence of octets that
 is well formed in the sense of section 4 of RFC 3629.
 */
module ReplyRendering {
  import opened Common

  predicate Continuation(b: Byte) {
    0x80 <= b < 0xC0
  }

  /** The length of the code point at the front of `s`, or 0 when there is none. */
  function CodePoint(s: seq<Byte>): (n: nat)
    ensures n <= |s| && n <= 4
    ensures n > 0 ==> !Continuation(s[0]) && forall i :: 1 <= i < n ==> Continuation(s[i])
  {
    if |s| == 0 then 0
    else if s[0] < 0x80 then 1
    else if 0xC2 <= s[0] <= 0xDF then
      if |s| >= 2 && Continuation(s[1]) then 2 else 0
    else if 0xE0 <= s[0] <= 0xEF then
      if && |s| >= 3 && Continuation(s[1]) && Continuation(s[2])
         && (s[0] == 0xE0 ==> 0xA0 <= s[1])
         && (s[0] == 0xED ==> s[1] < 0xA0)
      then 3 else 0
    else if 0xF0 <= s[0] <= 0xF4 then
      if && |s| >= 4 && Continuation(s[1]) && Continuation(s[2]) && Continuation(s[3])
         && (s[0] == 0xF0 ==> 0x90 <= s[1])
         && (s[0] == 0xF4 ==> s[1] < 0x90)
      then 4 else 0
    else 0
  }

  // ---- against the encoding it recognises -------------------------------------------

  /** The code points there are: all but the surrogates. */
  predicate Scalar(cp: nat) {
    cp <= 0x10FFFF && !(0xD800 <= cp <= 0xDFFF)
  }

  /** The octets of one code point, as in section 3 of RFC 3629. */
  function Encoded(cp: nat): (s: seq<Byte>)
    requires Scalar(cp)
  {
    if cp < 0x80 then [cp]
    else if cp < 0x800 then [0xC0 + cp / 64, 0x80 + cp % 64]
    else if cp < 0x10000 then [0xE0 + cp / 4096, 0x80 + cp / 64 % 64, 0x80 + cp % 64]
    else [0xF0 + cp / 262144, 0x80 + cp / 4096 % 64, 0x80 + cp / 64 % 64, 0x80 + cp % 64]
  }

  /** The code point that octets the recogniser takes stand for. */
  function Decoded(s: seq<Byte>): (cp: nat)
    requires CodePoint(s) > 0
  {
    if CodePoint(s) == 1 then s[0]
    else if CodePoint(s) == 2 then (s[0] as int - 0xC0) * 64 + (s[1] as int - 0x80)
    else if CodePoint(s) == 3 then (s[0] as int - 0xE0) * 4096 + (s[1] as int - 0x80) * 64 + (s[2] as int - 0x80)
    else (s[0] as int - 0xF0) * 262144 + (s[1] as int - 0x80) * 4096 + (s[2] as int - 0x80) * 64 + (s[3] as int - 0x80)
  }

  /** What is recognised is the encoding of a code point. */
  lemma RecognisedIsEncoded(s: seq<Byte>)
    requires CodePoint(s) > 0
    ensures Scalar(Decoded(s)) && Encoded(Decoded(s)) == s[..CodePoint(s)]
  {
    if CodePoint(s) == 2 {
      TwoDigits(s[0] as int - 0xC0, s[1] as int - 0x80);
    } else if CodePoint(s) == 3 {
      ThreeRecognised(s);
    } else if CodePoint(s) == 4 {
      FourRecognised(s);
    }
  }

  lemma ThreeRecognised(s: seq<Byte>)
    requires CodePoint(s) == 3
    ensures Scalar(Decoded(s)) && Encoded(Decoded(s)) == s[..3]
  {
    TwoDigits((s[0] as int - 0xE0) * 64 + (s[1] as int - 0x80), s[2] as int - 0x80);
    TwoDigits(s[0] as int - 0xE0, s[1] as int - 0x80);
  }

  lemma FourRecognised(s: seq<Byte>)
    requires CodePoint(s) == 4
    ensures Scalar(Decoded(s)) && Encoded(Decoded(s)) == s[..4]
  {
    var hi := (s[0] as int - 0xF0) * 64 + (s[1] as int - 0x80);
    TwoDigits(hi * 64 + (s[2] as int - 0x80), s[3] as int - 0x80);
    TwoDigits(hi, s[2] as int - 0x80);
    TwoDigits(s[0] as int - 0xF0, s[1] as int - 0x80);
  }

  /** A number in base 64 and its last digit. */
  lemma TwoDigits(high: nat, low: nat)
    requires low < 64
    ensures (high * 64 + low) / 64 == high && (high * 64 + low) % 64 == low
    ensures (high * 64 + low) / 4096 == high / 64 && (high * 64 + low) / 262144 == high / 4096
  {
  }

  /** And every code point's encoding is recognised, whatever follows it. */
  lemma EncodedIsRecognised(cp: nat, rest: seq<Byte>)
    requires Scalar(cp)
    ensures CodePoint(Encoded(cp) + rest) == |Encoded(cp)|
  {
  }

  predicate ValidUtf8(s: seq<Byte>) {
    s == [] || (CodePoint(s) > 0 && ValidUtf8(s[CodePoint(s)..]))
  }

  /** Whether cutting `s` before index `i` splits no code point. */
  predicate Boundary(s: seq<Byte>, i: nat)
    requires i <= |s|
  {
    i == 0 || i == |s| || !Continuation(s[i])
  }

  lemma CodePointOfPrefix(s: seq<Byte>, i: nat)
    requires 0 < CodePoint(s) <= i <= |s|
    ensures CodePoint(s[..i]) == CodePoint(s)
  {
  }

  /** A boundary splits well-formed text into two well-formed texts. */
  lemma {:induction false} SplitAtBoundary(s: seq<Byte>, i: nat)
    requires ValidUtf8(s) && i <= |s| && Boundary(s, i)
    ensures ValidUtf8(s[..i]) && ValidUtf8(s[i..])
  {
    hide CodePoint;
    var n := CodePoint(s);
    if i == 0 {
      assert s[..i] == [] && s[i..] == s;
    } else if i == |s| {
      assert s[..i] == s && s[i..] == [];
    } else {
      assert n <= i;
      var rest := s[n..];
      assert i == n || rest[i - n] == s[i];
      SplitAtBoundary(rest, i - n);
      CodePointOfPrefix(s, i);
      assert s[..i][n..] == rest[..i - n];
      assert s[i..] == rest[i - n..];
    }
  }

  lemma CodePointOfConcat(s: seq<Byte>, t: seq<Byte>)
    requires CodePoint(s) > 0
    ensures CodePoint(s + t) == CodePoint(s)
  {
  }

  lemma {:induction false} ConcatIsValid(s: seq<Byte>, t: seq<Byte>)
    requires ValidUtf8(s) && ValidUtf8(t)
    ensures ValidUtf8(s + t)
  {
    hide CodePoint;
    if s == [] {
      assert s + t == t;
    } else {
      var n := CodePoint(s);
      CodePointOfConcat(s, t);
      ConcatIsValid(s[n..], t);
      assert (s + t)[n..] == s[n..] + t;
    }
  }

  /** Any four consecutive cut points of well-formed text include a boundary. */
  lemma {:induction false} BoundaryIsNear(s: seq<Byte>, k: nat)
    requires ValidUtf8(s) && 3 <= k <= |s|
    ensures Boundary(s, k) || Boundary(s, k - 1) || Boundary(s, k - 2) || Boundary(s, k - 3)
  {
    if k < |s| && k > 3 {
      var n := CodePoint(s);
      if k >= n + 3 {
        BoundaryIsNear(s[n..], k - n);
        assert forall i :: 0 <= i < |s| - n ==> s[n..][i] == s[n + i];
        assert !Continuation(s[n]) by {
          assert CodePoint(s[n..]) > 0;
        }
      } else {
        assert CodePoint(s[n..]) > 0;
        assert s[n] == s[n..][0];
      }
    }
  }

  // ---- rendering --------------------------------------------------------------------

  /** "\n[reply truncated]" */
  const MARKER: seq<Byte> :=
    [0x0A, 0x5B, 0x72, 0x65, 0x70, 0x6C, 0x79, 0x20, 0x74, 0x72, 0x75, 0x6E, 0x63, 0x61, 0x74, 0x65, 0x64, 0x5D]

  predicate Ascii(s: seq<Byte>) {
    forall i :: 0 <= i < |s| ==> s[i] < 0x80
  }

  lemma {:induction false} AsciiIsValid(s: seq<Byte>)
    requires Ascii(s)
    ensures ValidUtf8(s)
  {
    if s != [] {
      AsciiIsValid(s[1..]);
    }
  }

  /** The last place at or before `keep` where the text may be cut. */
  ghost predicate LastCut(text: seq<Byte>, keep: nat, cut: nat) {
    && cut <= keep && cut <= |text|
    && Boundary(text, cut)
    && forall i :: cut < i <= keep && i <= |text| ==> !Boundary(text, i)
  }

  /** What a reply within `bound` octets must be, said without the scan that finds it. */
  ghost predicate Rendered(header: seq<Byte>, text: seq<Byte>, bound: nat, reply: seq<Byte>) {
    var budget := SaturatingSub(bound, |header|);
    if |text| <= budget then reply == header + text
    else
      exists cut: nat :: LastCut(text, SaturatingSub(budget, |MARKER|), cut)
        && reply == header + text[..cut] + (if |MARKER| <= budget then MARKER else [])
  }

  /** The scan back from the allowed cut to a place where the text may be cut. */
  method CutPoint(text: seq<Byte>, keep: nat) returns (boundary: nat)
    ensures LastCut(text, keep, boundary)
  {
    boundary := if keep < |text| then keep else |text|;
    while boundary > 0 && !Boundary(text, boundary)
      invariant 0 <= boundary <= keep && boundary <= |text|
      invariant forall i :: boundary < i <= keep && i <= |text| ==> !Boundary(text, i)
    {
      boundary := boundary - 1;
    }
  }

  method RenderReply(header: seq<Byte>, text: seq<Byte>, bound: nat) returns (reply: seq<Byte>)
    requires ValidUtf8(header) && ValidUtf8(text)
    ensures Rendered(header, text, bound, reply)
    ensures |reply| <= if |header| <= bound then bound else |header|
    ensures ValidUtf8(reply)
    ensures header <= reply
  {
    hide ValidUtf8;
    var budget := SaturatingSub(bound, |header|);
    var rendered := text;
    if |rendered| > budget {
      var boundary := CutPoint(rendered, SaturatingSub(budget, |MARKER|));
      rendered := rendered[..boundary];
      if |MARKER| <= SaturatingSub(budget, |rendered|) {
        rendered := rendered + MARKER;
      }
      CutIsValid(text, boundary);
      assert header + rendered == header + text[..boundary] + (if |MARKER| <= budget then MARKER else []);
    }
    ConcatIsValid(header, rendered);
    reply := header + rendered;
  }

  lemma CutIsValid(text: seq<Byte>, cut: nat)
    requires ValidUtf8(text) && cut <= |text| && Boundary(text, cut)
    ensures ValidUtf8(text[..cut]) && ValidUtf8(text[..cut] + MARKER)
  {
    hide ValidUtf8, Boundary;
    SplitAtBoundary(text, cut);
    AsciiIsValid(MARKER);
    ConcatIsValid(text[..cut], MARKER);
  }

  /** The specification determines the reply, and no cut loses more than three octets. */
  lemma RenderedIsDetermined(header: seq<Byte>, text: seq<Byte>, bound: nat, a: seq<Byte>, b: seq<Byte>)
    requires Rendered(header, text, bound, a) && Rendered(header, text, bound, b)
    ensures a == b
  {
    var budget := SaturatingSub(bound, |header|);
    if |text| > budget {
      var keep := SaturatingSub(budget, |MARKER|);
      var i: nat :| LastCut(text, keep, i) && a == header + text[..i] + (if |MARKER| <= budget then MARKER else []);
      var j: nat :| LastCut(text, keep, j) && b == header + text[..j] + (if |MARKER| <= budget then MARKER else []);
      assert !(i < j) && !(j < i);
    }
  }

  lemma CutLosesAtMostThree(text: seq<Byte>, keep: nat, cut: nat)
    requires ValidUtf8(text) && keep <= |text| && LastCut(text, keep, cut)
    ensures keep - 3 <= cut <= keep
  {
    if keep >= 3 {
      BoundaryIsNear(text, keep);
    }
  }

  // ---- the header -------------------------------------------------------------------

  function HexDigit(n: nat): (b: Byte)
    requires n < 16
    ensures b < 0x80 && b == "0123456789abcdef"[n] as int
  {
    if n < 10 then 0x30 + n else 0x61 + n - 10
  }

  function Hex(bytes: seq<Byte>): (r: seq<Byte>)
    ensures |r| == 2 * |bytes| && Ascii(r)
  {
    if bytes == [] then []
    else [HexDigit(bytes[0] / 16), HexDigit(bytes[0] % 16)] + Hex(bytes[1..])
  }

  /** Two digits for each octet, the high half first, in order. */
  lemma {:induction false} HexAt(bytes: seq<Byte>, i: nat)
    requires i < |bytes|
    ensures Hex(bytes)[2 * i] == HexDigit(bytes[i] / 16) && Hex(bytes)[2 * i + 1] == HexDigit(bytes[i] % 16)
  {
    if i > 0 {
      HexAt(bytes[1..], i - 1);
      assert Hex(bytes)[2..] == Hex(bytes[1..]);
      assert Hex(bytes)[2 * i] == Hex(bytes)[2..][2 * i - 2] && Hex(bytes)[2 * i + 1] == Hex(bytes)[2..][2 * i - 1];
    }
  }

  /** "Work <coordinate> · <status>\n\n"; the middle dot is the two octets C2 B7. */
  function Header(coordinate: seq<Byte>, status: seq<Byte>): (h: seq<Byte>)
    ensures |h| == 11 + 2 * |coordinate| + |status|
  {
    [0x57, 0x6F, 0x72, 0x6B, 0x20] + Hex(coordinate) + [0x20, 0xC2, 0xB7, 0x20] + status + [0x0A, 0x0A]
  }

  lemma MiddleDotIsValid(dot: seq<Byte>)
    requires dot == [0xC2, 0xB7]
    ensures ValidUtf8(dot)
  {
    assert CodePoint(dot) == 2 && dot[2..] == [];
  }

  lemma HeaderIsValid(coordinate: seq<Byte>, status: seq<Byte>)
    requires Ascii(status)
    ensures ValidUtf8(Header(coordinate, status))
  {
    hide ValidUtf8;
    var dot: seq<Byte> := [0xC2, 0xB7];
    MiddleDotIsValid(dot);
    var front := [0x57, 0x6F, 0x72, 0x6B, 0x20] + Hex(coordinate) + [0x20];
    var back := [0x20] + status + [0x0A, 0x0A];
    AsciiIsValid(front);
    AsciiIsValid(back);
    ConcatIsValid(front, dot);
    ConcatIsValid(front + dot, back);
    assert Header(coordinate, status) == front + dot + back;
  }
}
