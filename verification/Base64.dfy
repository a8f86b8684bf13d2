/** Base64 in the two alphabets of RFC 4648, with optional line breaks. */
module Base64 {
  import opened Bytes

  const NEWLINE: byte := 10
  const PEM_LINE := 64
  const MIME_LINE := 76

  /** The position counter of the encoding loop is an unsigned 32-bit integer. */
  const COUNTER_SIZE := 0x1_0000_0000

  // ----- The alphabets; masks and shifts are written as division and remainder -----

  type sextet = x: int | 0 <= x < 64

  /** Entry i of the table: A-Z, a-z, 0-9, then two characters that depend on the alphabet. */
  function CharAt(i: sextet, url: bool): (c: byte)
    ensures c != NEWLINE && !IsPad(c)
  {
    if i < 26 then 65 + i
    else if i < 52 then 97 + (i - 26)
    else if i < 62 then 48 + (i - 52)
    else if i == 62 then (if url then 45 else 43)
    else (if url then 95 else 47)
  }

  function Pad(url: bool): byte {
    if url then 46 else 61
  }

  predicate IsPad(c: byte) {
    c == 61 || c == 46
  }

  /** None where the library throws; both alphabets are accepted. */
  function PosOfChar(c: byte): (r: Option<int>)
    ensures r.Some? ==> 0 <= r.value < 64
  {
    if 65 <= c <= 90 then Some(c - 65)
    else if 97 <= c <= 122 then Some(c - 97 + 26)
    else if 48 <= c <= 57 then Some(c - 48 + 52)
    else if c == 43 || c == 45 then Some(62)
    else if c == 47 || c == 95 then Some(63)
    else None
  }

  /** Each table inverts to its positions, and only table characters have a position. */
  lemma PosOfCharInverse(i: sextet, c: byte, url: bool)
    ensures PosOfChar(CharAt(i, url)) == Some(i)
    ensures PosOfChar(c) == Some(i) <==> c == CharAt(i, false) || c == CharAt(i, true)
  {
  }

  /** The alphabets of RFC 4648, which differ in the last two characters. */
  const UPPER: string := "ABCDEFGHIJKLMNOPQRSTUVWXYZ"
  const LOWER: string := "abcdefghijklmnopqrstuvwxyz"
  const DIGITS: string := "0123456789"

  function Table(url: bool): string {
    UPPER + LOWER + DIGITS + (if url then "-_" else "+/")
  }

  lemma LetterAt(i: nat)
    requires i < 26
    ensures |UPPER| == 26 && |LOWER| == 26 && |DIGITS| == 10
    ensures UPPER[i] as int == 65 + i && LOWER[i] as int == 97 + i && (i < 10 ==> DIGITS[i] as int == 48 + i)
  {
    assert i in {0, 1, 2, 3, 4, 5, 6, 7, 8, 9, 10, 11, 12, 13, 14, 15, 16, 17, 18, 19, 20, 21, 22, 23, 24, 25};
  }

  /** The characters are those of the alphabet; padding is an equals sign, or a dot in the other alphabet. */
  lemma CharAtTable(i: sextet, url: bool)
    ensures |Table(url)| == 64 && CharAt(i, url) == Table(url)[i] as int
    ensures Pad(url) == (if url then '.' else '=') as int
  {
    hide UPPER, LOWER, DIGITS;
    LetterAt(if i < 26 then i else if i < 52 then i - 26 else if i < 62 then i - 52 else 0);
    FourParts(UPPER, LOWER, DIGITS, if url then "-_" else "+/", i);
  }

  lemma FourParts(a: string, b: string, c: string, d: string, i: sextet)
    requires |a| == 26 && |b| == 26 && |c| == 10 && |d| == 2
    ensures |a + b + c + d| == 64
    ensures (a + b + c + d)[i] == if i < 26 then a[i] else if i < 52 then b[i - 26] else if i < 62 then c[i - 52] else d[i - 62]
  {
  }

  function Take(s: seq<byte>, n: nat): seq<byte> {
    if n < |s| then s[..n] else s
  }

  function Drop(s: seq<byte>, n: nat): seq<byte> {
    if n < |s| then s[n..] else []
  }

  // ----- Encoding -----

  function Encode(s: seq<byte>, url: bool): (r: seq<byte>)
    ensures |r| == (|s| + 2) / 3 * 4
    ensures NEWLINE !in r
    decreases |s|
  {
    if s == [] then [] else
      GroupCount(|s|, |Drop(s, 3)|);
      EncodeGroup(Take(s, 3), url) + Encode(Drop(s, 3), url)
  }

  lemma GroupCount(n: nat, rest: nat)
    requires n > 0 && rest == if n <= 3 then 0 else n - 3
    ensures (n + 2) / 3 * 4 == 4 + (rest + 2) / 3 * 4
  {
    assert (n + 2) / 3 == 1 + (rest + 2) / 3;
  }

  // The six-bit pieces of a group, each from one byte or two neighbours; a missing second byte counts as 0.

  function High6(a: byte): sextet {
    a / 4
  }

  function Low2High4(a: byte, b: byte): sextet {
    a % 4 * 16 + b / 16
  }

  function Low4High2(b: byte, c: byte): sextet {
    b % 16 * 4 + c / 64
  }

  function Low6(c: byte): sextet {
    c % 64
  }

  /** One to three bytes as four characters. */
  function EncodeGroup(g: seq<byte>, url: bool): (r: seq<byte>)
    requires 1 <= |g| <= 3
    ensures |r| == 4 && NEWLINE !in r
  {
    var c0 := CharAt(High6(g[0]), url);
    if |g| == 1 then [c0, CharAt(Low2High4(g[0], 0), url), Pad(url), Pad(url)] else
      var c1 := CharAt(Low2High4(g[0], g[1]), url);
      if |g| == 2 then [c0, c1, CharAt(Low4High2(g[1], 0), url), Pad(url)]
      else [c0, c1, CharAt(Low4High2(g[1], g[2]), url), CharAt(Low6(g[2]), url)]
  }

  method Base64Encode(s: seq<byte>, url: bool) returns (ret: seq<byte>)
    requires |s| < COUNTER_SIZE
    ensures ret == Encode(s, url)
  {
    ret := [];
    var pos := 0;
    assert Drop(s, 0) == s && ret + Encode(s, url) == Encode(s, url);
    hide CharAt, Pad, Encode, EncodeGroup, Take, Drop, High6, Low2High4, Low4High2, Low6;
    while pos < |s|
      invariant 0 <= pos < COUNTER_SIZE && pos % 3 == 0
      invariant Encode(s, url) == ret + Encode(Drop(s, pos), url)
      decreases |s| - pos
    {
      ghost var before := ret;
      ghost var group := EncodeGroup(Take(s[pos..], 3), url);
      GroupAt(s, pos, url);
      ret := ret + [CharAt(High6(s[pos]), url)];
      if pos + 1 < |s| {
        ret := ret + [CharAt(Low2High4(s[pos], s[pos + 1]), url)];
        if pos + 2 < |s| {
          ret := ret + [CharAt(Low4High2(s[pos + 1], s[pos + 2]), url)];
          ret := ret + [CharAt(Low6(s[pos + 2]), url)];
        } else {
          ret := ret + [CharAt(Low4High2(s[pos + 1], 0), url)];
          ret := ret + [Pad(url)];
        }
      } else {
        ret := ret + [CharAt(Low2High4(s[pos], 0), url)];
        ret := ret + [Pad(url)];
        ret := ret + [Pad(url)];
      }
      FourPushed(before, group[0], group[1], group[2], group[3]);
      EncodeTurn(s, pos, before, ret, url);
      NoWrap(pos, |s|);
      pos := (pos + 3) % COUNTER_SIZE;
    }
    NothingToEncode(s, pos, url);
  }

  lemma NothingToEncode(s: seq<byte>, pos: nat, url: bool)
    requires pos >= |s|
    ensures Encode(Drop(s, pos), url) == []
  {
  }

  lemma FourPushed(before: seq<byte>, a: byte, b: byte, c: byte, d: byte)
    ensures before + [a] + [b] + [c] + [d] == before + [a, b, c, d]
  {
  }

  /** The characters of the group at a position. */
  lemma GroupAt(s: seq<byte>, pos: nat, url: bool)
    requires pos < |s|
    ensures EncodeGroup(Take(s[pos..], 3), url) ==
            [CharAt(High6(s[pos]), url)] +
            (if pos + 1 >= |s| then [CharAt(Low2High4(s[pos], 0), url), Pad(url), Pad(url)] else
             [CharAt(Low2High4(s[pos], s[pos + 1]), url)] +
             (if pos + 2 >= |s| then [CharAt(Low4High2(s[pos + 1], 0), url), Pad(url)]
              else [CharAt(Low4High2(s[pos + 1], s[pos + 2]), url), CharAt(Low6(s[pos + 2]), url)]))
  {
    hide CharAt, Pad, High6, Low2High4, Low4High2, Low6;
  }

  /** One turn of the encoding loop pushes the group at its position. */
  lemma EncodeTurn(s: seq<byte>, pos: nat, before: seq<byte>, ret: seq<byte>, url: bool)
    requires pos < |s| && ret == before + EncodeGroup(Take(s[pos..], 3), url)
    ensures before + Encode(Drop(s, pos), url) == ret + Encode(Drop(s, pos + 3), url)
  {
    hide EncodeGroup;
    var rest := s[pos..];
    assert Drop(rest, 3) == Drop(s, pos + 3);
  }

  lemma NoWrap(pos: nat, n: nat)
    requires pos < n < COUNTER_SIZE && pos % 3 == 0
    ensures (pos + 3) % COUNTER_SIZE == pos + 3 && (pos + 3) % 3 == 0
  {
  }

  /** The 32-bit counter, going up in threes, passes the end of the input iff the input is below 4 GiB. */
  lemma CounterPassesEnd(n: nat)
    ensures (exists k: nat :: Counter(k) >= n) <==> n < COUNTER_SIZE
  {
    if n < COUNTER_SIZE {
      assert Counter((n + 2) / 3) >= n;
    }
  }

  function Counter(k: nat): int {
    3 * k % COUNTER_SIZE
  }

  /** Four pieces of six bits and three bytes of eight are the same number, most significant first. */
  lemma GroupValue(a: byte, b: byte, c: byte)
    ensures High6(a) * 0x40000 + Low2High4(a, b) * 0x1000 + Low4High2(b, c) * 0x40 + Low6(c) == a * 0x10000 + b * 0x100 + c
  {
    assert a == High6(a) * 4 + a % 4;
    assert b == b / 16 * 16 + b % 16;
    assert c == c / 64 * 64 + Low6(c);
  }

  // ----- Decoding -----

  /** A std::string can be indexed up to its length, where it holds NUL. */
  function At(s: seq<byte>, i: nat): byte
    requires i <= |s|
  {
    if i < |s| then s[i] else 0
  }

  /** Decodes the characters at the front of a non-empty string; never looks beyond the terminator. */
  function DecodeGroup(s: seq<byte>): Option<seq<byte>>
    requires s != []
  {
    match (PosOfChar(s[0]), PosOfChar(At(s, 1)))
    case (Some(p0), Some(p1)) =>
      assert 1 < |s|;
      var b0 := p0 * 4 + p1 / 16;
      if IsPad(At(s, 2)) then Some([b0]) else
        (match PosOfChar(At(s, 2))
         case None => None
         case Some(p2) =>
           assert 2 < |s|;
           var b1 := p1 % 16 * 16 + p2 / 4;
           if IsPad(At(s, 3)) then Some([b0, b1]) else
             (match PosOfChar(At(s, 3))
              case None => None
              case Some(p3) => Some([b0, b1, p2 % 4 * 64 + p3])))
    case _ => None
  }

  function Decode(s: seq<byte>): Option<seq<byte>>
    decreases |s|
  {
    if s == [] then Some([]) else
      match DecodeGroup(s)
      case None => None
      case Some(x) =>
        match Decode(Drop(s, 4))
        case None => None
        case Some(y) => Some(x + y)
  }

  method Base64Decode(s: seq<byte>) returns (r: Option<seq<byte>>)
    ensures r == Decode(s)
  {
    hide PosOfChar, IsPad, Decode;
    var ret: seq<byte> := [];
    var pos := 0;
    DecodeEnds(s);
    while pos < |s|
      invariant 0 <= pos
      invariant Decode(s) == Prefixed(ret, Decode(Drop(s, pos)))
    {
      ghost var rest, before := Drop(s, pos), ret;
      DecodeTurn(s, pos, before);
      assert At(rest, 1) == At(s, pos + 1);
      var p1 := PosOfChar(At(s, pos + 1));
      var p0 := PosOfChar(s[pos]);
      if p0.None? || p1.None? {
        return None;
      }
      ret := ret + [p0.value * 4 + p1.value / 16];
      if !IsPad(At(s, pos + 2)) {
        var p2 := PosOfChar(At(s, pos + 2));
        if p2.None? {
          return None;
        }
        ret := ret + [p1.value % 16 * 16 + p2.value / 4];
        if !IsPad(At(s, pos + 3)) {
          var p3 := PosOfChar(At(s, pos + 3));
          if p3.None? {
            return None;
          }
          ret := ret + [p2.value % 4 * 64 + p3.value];
        }
      }
      assert DecodeGroup(rest).Some? && ret == before + DecodeGroup(rest).value;
      pos := pos + 4;
    }
    r := Some(ret);
    assert ret + [] == ret;
  }

  /** A result behind bytes already decoded. */
  function Prefixed(ret: seq<byte>, d: Option<seq<byte>>): Option<seq<byte>> {
    if d.Some? then Some(ret + d.value) else None
  }

  lemma DecodeEnds(s: seq<byte>)
    ensures PosOfChar(0) == None && Decode([]) == Some([])
    ensures Decode(s) == Prefixed([], Decode(Drop(s, 0)))
  {
    assert Drop(s, 0) == s;
    var d := Decode(s);
    if d.Some? {
      assert [] + d.value == d.value;
    }
  }

  /** One turn of the decoding loop. */
  lemma DecodeTurn(s: seq<byte>, pos: nat, before: seq<byte>)
    requires pos < |s|
    ensures Prefixed(before, Decode(Drop(s, pos))) ==
            match DecodeGroup(Drop(s, pos))
            case None => None
            case Some(x) => Prefixed(before + x, Decode(Drop(s, pos + 4)))
  {
    hide DecodeGroup;
    var rest := Drop(s, pos);
    assert Drop(rest, 4) == Drop(s, pos + 4);
    var x, d := DecodeGroup(rest), Decode(Drop(rest, 4));
    if x.Some? && d.Some? {
      assert before + (x.value + d.value) == before + x.value + d.value;
    }
  }

  /** The pieces of three bytes put the bytes together again. */
  lemma BitsRoundTrip(a: byte, b: byte, c: byte)
    ensures var p0, p1, p2, p3 := High6(a), Low2High4(a, b), Low4High2(b, c), Low6(c);
            p0 * 4 + p1 / 16 == a && p1 % 16 * 16 + p2 / 4 == b && p2 % 4 * 64 + p3 == c
  {
    var p1, p2 := Low2High4(a, b), Low4High2(b, c);
    assert p1 / 16 == a % 4 && p1 % 16 == b / 16;
    assert p2 / 4 == b % 16 && p2 % 4 == c / 64;
  }

  lemma GroupRoundTrip(g: seq<byte>, url: bool, rest: seq<byte>)
    requires 1 <= |g| <= 3
    ensures DecodeGroup(EncodeGroup(g, url) + rest) == Some(g)
  {
    hide CharAt, PosOfChar, IsPad, High6, Low2High4, Low4High2, Low6;
    forall i: sextet
      ensures PosOfChar(CharAt(i, url)) == Some(i)
    {
      PosOfCharInverse(i, 0, url);
    }
    var e := EncodeGroup(g, url);
    var s := e + rest;
    assert s[0] == e[0] && At(s, 1) == e[1] && At(s, 2) == e[2] && At(s, 3) == e[3];
    PadIsPad(url);
    BitsRoundTrip(g[0], if |g| > 1 then g[1] else 0, if |g| > 2 then g[2] else 0);
    assert g == if |g| == 1 then [g[0]] else if |g| == 2 then [g[0], g[1]] else [g[0], g[1], g[2]];
    hide EncodeGroup;
  }

  lemma PadIsPad(url: bool)
    ensures IsPad(Pad(url))
  {
  }

  /** Decoding undoes encoding, for every byte string and both alphabets. */
  lemma {:induction false} RoundTrip(s: seq<byte>, url: bool)
    ensures Decode(Encode(s, url)) == Some(s)
    decreases |s|
  {
    hide DecodeGroup, EncodeGroup;
    if s == [] {
    } else {
      var g, t := Take(s, 3), Drop(s, 3);
      var e := Encode(s, url);
      RoundTrip(t, url);
      GroupRoundTrip(g, url, Encode(t, url));
      assert Drop(e, 4) == Encode(t, url);
      assert g + t == s;
    }
  }

  // ----- When decoding throws -----

  predicate InAlphabet(c: byte) {
    exists i: sextet :: c == CharAt(i, false) || c == CharAt(i, true)
  }

  /** The group at a position: two characters, then padding or a third, then padding or a fourth. */
  predicate GroupOk(s: seq<byte>, i: nat) {
    i + 2 < |s| && InAlphabet(s[i]) && InAlphabet(s[i + 1]) &&
    (IsPad(s[i + 2]) ||
     (InAlphabet(s[i + 2]) && i + 3 < |s| && (IsPad(s[i + 3]) || InAlphabet(s[i + 3]))))
  }

  lemma InAlphabetExact(c: byte)
    ensures InAlphabet(c) <==> PosOfChar(c).Some?
    ensures IsPad(c) <==> c == Pad(false) || c == Pad(true)
    ensures !InAlphabet(0) && !IsPad(0)
  {
    if PosOfChar(c).Some? {
      PosOfCharInverse(PosOfChar(c).value, c, false);
    }
    if InAlphabet(c) {
      var i: sextet :| c == CharAt(i, false) || c == CharAt(i, true);
      PosOfCharInverse(i, c, false);
    }
  }

  lemma GroupDecodes(s: seq<byte>)
    requires s != []
    ensures DecodeGroup(s).Some? <==> GroupOk(s, 0)
  {
    forall c: byte
      ensures (InAlphabet(c) <==> PosOfChar(c).Some?) && !InAlphabet(0) && !IsPad(0)
    {
      InAlphabetExact(c);
    }
    hide PosOfChar, IsPad, InAlphabet;
  }

  /** Decoding succeeds iff every group of four characters is in order. */
  lemma {:induction false} DecodeExact(s: seq<byte>)
    ensures Decode(s).Some? <==> forall i :: 0 <= i < |s| && i % 4 == 0 ==> GroupOk(s, i)
    decreases |s|
  {
    hide DecodeGroup, InAlphabet, IsPad;
    if s != [] {
      GroupDecodes(s);
      var t := Drop(s, 4);
      DecodeExact(t);
      assert forall i: nat :: i < |t| ==> (GroupOk(t, i) <==> GroupOk(s, i + 4)) by {
        assert forall j :: 0 <= j < |t| ==> t[j] == s[j + 4];
      }
      if forall i :: 0 <= i < |t| && i % 4 == 0 ==> GroupOk(t, i) {
        forall i | 4 <= i < |s| && i % 4 == 0
          ensures GroupOk(s, i)
        {
          assert GroupOk(t, i - 4);
        }
      }
    }
  }

  // ----- Line breaks -----

  function InsertBreaks(s: seq<byte>, distance: nat): seq<byte>
    requires distance > 0
  {
    if |s| <= distance then s else s[..distance] + [NEWLINE] + InsertBreaks(s[distance..], distance)
  }

  method InsertLinebreaks(str: seq<byte>, distance: nat) returns (r: seq<byte>)
    requires distance > 0
    ensures r == InsertBreaks(str, distance)
  {
    hide InsertBreaks;
    r := str;
    if |str| == 0 {
      BreakUnfold(str, distance);
      return;
    }
    var pos := distance;
    ghost var head, tail := [], str;
    while pos < |r|
      invariant pos == |head| + distance && r == head + tail
      invariant InsertBreaks(str, distance) == head + InsertBreaks(tail, distance)
      decreases |tail|
    {
      BreakUnfold(tail, distance);
      ghost var line, rest := tail[..distance], tail[distance..];
      assert r[..pos] == head + line && r[pos..] == rest;
      r := r[..pos] + [NEWLINE] + r[pos..];
      pos := pos + distance + 1;
      assert r == head + line + [NEWLINE] + rest;
      assert head + (line + [NEWLINE] + InsertBreaks(rest, distance)) ==
             head + line + [NEWLINE] + InsertBreaks(rest, distance);
      head, tail := head + line + [NEWLINE], rest;
    }
    BreakUnfold(tail, distance);
  }

  lemma BreakUnfold(s: seq<byte>, distance: nat)
    requires distance > 0
    ensures InsertBreaks(s, distance) ==
            if |s| <= distance then s else s[..distance] + [NEWLINE] + InsertBreaks(s[distance..], distance)
  {
  }

  function RemoveBreaks(s: seq<byte>): seq<byte> {
    if s == [] then [] else (if s[0] == NEWLINE then [] else [s[0]]) + RemoveBreaks(s[1..])
  }

  /** The search-and-erase loop of the decoder. */
  method EraseLinebreaks(s: seq<byte>) returns (copy: seq<byte>)
    ensures copy == RemoveBreaks(s)
  {
    hide RemoveBreaks;
    copy := s;
    var pos := 0;
    assert copy[..0] + RemoveBreaks(copy[0..]) == RemoveBreaks(s) by { assert copy[0..] == s; }
    while true
      invariant 0 <= pos <= |copy|
      invariant RemoveBreaks(s) == copy[..pos] + RemoveBreaks(copy[pos..])
      decreases |copy|
    {
      var found := FindByte(copy[pos..], NEWLINE);
      EraseTurn(copy, pos, found);
      pos := pos + found;
      if pos == |copy| {
        break;
      }
      copy := copy[..pos] + copy[pos + 1..];
    }
  }

  /** Skipping to the next line break and erasing it leaves what is still to be done unchanged. */
  lemma EraseTurn(copy: seq<byte>, pos: nat, found: nat)
    requires pos <= |copy| && found == FindByte(copy[pos..], NEWLINE)
    ensures var p := pos + found;
            copy[..pos] + RemoveBreaks(copy[pos..]) ==
            if p == |copy| then copy
            else (var erased := copy[..p] + copy[p + 1..]; erased[..p] + RemoveBreaks(erased[p..]))
  {
    hide RemoveBreaks;
    var rest, p := copy[pos..], pos + found;
    var line := rest[..found];
    assert copy[..p] == copy[..pos] + line;
    if p == |copy| {
      RemoveBreaksPrefix(rest, found);
      assert rest[found..] == [] && line == rest && copy == copy[..pos] + rest;
      NoBytesNoBreaks();
    } else {
      var erased, t := copy[..p] + copy[p + 1..], copy[p + 1..];
      assert rest == line + [NEWLINE] + t;
      RemoveFirstBreak(line, t);
      assert erased[..p] == copy[..p] && erased[p..] == t;
      assert copy[..pos] + (line + RemoveBreaks(t)) == copy[..p] + RemoveBreaks(t);
    }
  }

  lemma NoBytesNoBreaks()
    ensures RemoveBreaks([]) == []
  {
  }

  lemma {:induction false} RemoveBreaksPrefix(s: seq<byte>, n: nat)
    requires n <= |s| && forall k :: 0 <= k < n ==> s[k] != NEWLINE
    ensures RemoveBreaks(s) == s[..n] + RemoveBreaks(s[n..])
  {
    if n == 0 {
      assert s[0..] == s;
    } else {
      RemoveBreaksPrefix(s[1..], n - 1);
      assert s[..n] == [s[0]] + s[1..][..n - 1];
      assert s[n..] == s[1..][n - 1..];
    }
  }

  /** The decoder's entry point, with or without line-break removal. */
  method Base64DecodeText(s: seq<byte>, removeLinebreaks: bool) returns (r: Option<seq<byte>>)
    ensures r == Decode(if removeLinebreaks then RemoveBreaks(s) else s)
  {
    var text := s;
    if removeLinebreaks {
      text := EraseLinebreaks(s);
    }
    r := Base64Decode(text);
  }

  lemma BreakDropped(t: seq<byte>)
    ensures RemoveBreaks([NEWLINE] + t) == RemoveBreaks(t)
  {
    assert ([NEWLINE] + t)[1..] == t;
  }

  lemma RemoveFirstBreak(line: seq<byte>, t: seq<byte>)
    requires NEWLINE !in line
    ensures RemoveBreaks(line + [NEWLINE] + t) == line + RemoveBreaks(t)
  {
    hide RemoveBreaks;
    var r := line + [NEWLINE] + t;
    assert r[..|line|] == line && r[|line|..] == [NEWLINE] + t;
    RemoveBreaksPrefix(r, |line|);
    BreakDropped(t);
  }

  lemma {:induction false} RemoveInserted(s: seq<byte>, distance: nat)
    requires distance > 0 && NEWLINE !in s
    ensures RemoveBreaks(InsertBreaks(s, distance)) == s
  {
    var r := InsertBreaks(s, distance);
    if |s| <= distance {
      RemoveBreaksPrefix(s, |s|);
    } else {
      hide InsertBreaks;
      BreakUnfold(s, distance);
      RemoveInserted(s[distance..], distance);
      RemoveFirstBreak(s[..distance], InsertBreaks(s[distance..], distance));
      assert s == s[..distance] + s[distance..];
    }
  }

  /** Text broken into lines of any length decodes back to the bytes, once the line breaks are removed. */
  lemma BrokenLinesRoundTrip(s: seq<byte>, distance: nat)
    requires distance > 0
    ensures Decode(RemoveBreaks(InsertBreaks(Encode(s, false), distance))) == Some(s)
  {
    RemoveInserted(Encode(s, false), distance);
    RoundTrip(s, false);
  }

  /** The text cut at its line breaks. */
  function Lines(s: seq<byte>): (ls: seq<seq<byte>>)
    ensures |ls| > 0
  {
    var i := FindByte(s, NEWLINE);
    if i == |s| then [s] else [s[..i]] + Lines(s[i + 1..])
  }

  lemma FirstLine(line: seq<byte>, t: seq<byte>)
    requires NEWLINE !in line
    ensures Lines(line + [NEWLINE] + t) == [line] + Lines(t)
  {
    var r := line + [NEWLINE] + t;
    assert forall k :: 0 <= k < |line| ==> r[k] == line[k];
    assert r[|line|] == NEWLINE;
    assert r[..|line|] == line && r[|line| + 1..] == t;
  }

  /** Every line but the last has exactly the given length; the last is not longer, and not empty. */
  lemma {:induction false} LineLengths(s: seq<byte>, distance: nat)
    requires distance > 0 && NEWLINE !in s
    ensures var ls := Lines(InsertBreaks(s, distance));
            (forall i :: 0 <= i < |ls| - 1 ==> |ls[i]| == distance) &&
            |ls[|ls| - 1]| <= distance && (s != [] ==> ls[|ls| - 1] != [])
  {
    if |s| <= distance {
      assert InsertBreaks(s, distance) == s && FindByte(s, NEWLINE) == |s|;
    } else {
      var t := InsertBreaks(s[distance..], distance);
      BreakUnfold(s, distance);
      LineLengths(s[distance..], distance);
      hide InsertBreaks, Lines;
      FirstLine(s[..distance], t);
    }
  }

  method EncodePem(s: seq<byte>) returns (r: seq<byte>)
    requires |s| < COUNTER_SIZE
    ensures r == InsertBreaks(Encode(s, false), PEM_LINE)
  {
    var text := Base64Encode(s, false);
    r := InsertLinebreaks(text, PEM_LINE);
  }

  method EncodeMime(s: seq<byte>) returns (r: seq<byte>)
    requires |s| < COUNTER_SIZE
    ensures r == InsertBreaks(Encode(s, false), MIME_LINE)
  {
    var text := Base64Encode(s, false);
    r := InsertLinebreaks(text, MIME_LINE);
  }

  /** PEM text has lines of 64 characters and MIME text lines of 76, the last one excepted; both decode back. */
  lemma PemAndMime(s: seq<byte>)
    ensures var pem, mime := InsertBreaks(Encode(s, false), PEM_LINE), InsertBreaks(Encode(s, false), MIME_LINE);
            (forall i :: 0 <= i < |Lines(pem)| - 1 ==> |Lines(pem)[i]| == 64) &&
            (forall i :: 0 <= i < |Lines(mime)| - 1 ==> |Lines(mime)[i]| == 76) &&
            Decode(RemoveBreaks(pem)) == Some(s) && Decode(RemoveBreaks(mime)) == Some(s) && NEWLINE == '\n' as int
  {
    hide Encode, InsertBreaks, Lines, Decode, RemoveBreaks;
    LineLengths(Encode(s, false), PEM_LINE);
    LineLengths(Encode(s, false), MIME_LINE);
    BrokenLinesRoundTrip(s, PEM_LINE);
    BrokenLinesRoundTrip(s, MIME_LINE);
  }
}
