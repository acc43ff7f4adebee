/** The serial number a board shows in DFU mode, computed from the one it shows otherwise. */
module Dfu {
  import opened Text

  const WORD: nat := 0x1_0000_0000

  predicate IsHex(c: char) {
    '0' <= c <= '9' || 'a' <= c <= 'f' || 'A' <= c <= 'F'
  }

  function HexValue(c: char): (v: nat)
    requires IsHex(c)
    ensures v < 16
  {
    if '0' <= c <= '9' then c as nat - '0' as nat
    else if 'a' <= c <= 'f' then c as nat - 'a' as nat + 10
    else c as nat - 'A' as nat + 10
  }

  function HexDigit(d: nat): (c: char)
    requires d < 16
    ensures IsHex(c) && HexValue(c) == d
  {
    if d < 10 then ('0' as nat + d) as char else ('A' as nat + d - 10) as char
  }

  /** `n` in `k` hexadecimal digits. */
  function HexText(n: nat, k: nat): (s: string)
    ensures |s| == k && forall i :: 0 <= i < k ==> IsHex(s[i])
  {
    if k == 0 then "" else HexText(n / 16, k - 1) + [HexDigit(n % 16)]
  }

  function HexNumber(s: string): nat
    requires forall i :: 0 <= i < |s| ==> IsHex(s[i])
  {
    if s == "" then 0 else HexNumber(s[..|s| - 1]) * 16 + HexValue(s[|s| - 1])
  }

  function Pow16(k: nat): (p: nat)
    ensures p > 0
  {
    if k == 0 then 1 else Pow16(k - 1) * 16
  }

  lemma {:induction false} HexReads(n: nat, k: nat)
    requires n < Pow16(k)
    ensures HexNumber(HexText(n, k)) == n
  {
    if k > 0 {
      HexReads(n / 16, k - 1);
      assert HexText(n, k)[..k - 1] == HexText(n / 16, k - 1);
    }
  }

  // ---- the unique id ----

  /** White space between two bytes is skipped where hexadecimal digits are decoded. */
  predicate IsGap(c: char) {
    c == ' ' || ('\t' <= c <= '\r')
  }

  /** Bytes from pairs of digits; `None` when something else is in the way. */
  function FromHex(s: string): (r: Maybe<seq<nat>>)
    ensures r.Some? ==> forall i :: 0 <= i < |r.value| ==> r.value[i] < 256
  {
    if s == "" then Some([])
    else if IsGap(s[0]) then FromHex(s[1..])
    else if |s| >= 2 && IsHex(s[0]) && IsHex(s[1]) then
      match FromHex(s[2..])
      case Some(rest) => Some([HexValue(s[0]) * 16 + HexValue(s[1])] + rest)
      case None => None
    else None
  }

  /** White space before a pair of digits is skipped, but none within it; anything else cannot be decoded. */
  lemma {:induction false} FromHexReads(c: char, d: char, s: string)
    ensures c == ' ' || 9 <= c as int <= 13 ==> FromHex([c] + s) == FromHex(s)
    ensures IsHex(c) && IsHex(d) ==>
      FromHex([c, d] + s)
      == if FromHex(s).None? then None else Some([HexValue(c) * 16 + HexValue(d)] + FromHex(s).value)
    ensures IsHex(c) ==> FromHex([c]) == None
    ensures IsHex(c) && !IsHex(d) ==> FromHex([c, d] + s) == None
    ensures c != ' ' && !(9 <= c as int <= 13) && !IsHex(c) ==> FromHex([c] + s) == None
  {
    assert ([c] + s)[1..] == s && ([c, d] + s)[2..] == s;
  }

  /** 24 characters that can be decoded. */
  predicate Decodes(uid: string) {
    |uid| == 24 && FromHex(uid).Some?
  }

  /** 24 hexadecimal digits: 96 bits. */
  predicate IsUid(uid: string) {
    |uid| == 24 && forall i :: 0 <= i < 24 ==> IsHex(uid[i])
  }

  lemma {:induction false} DigitsDecode(s: string)
    requires |s| % 2 == 0 && forall i :: 0 <= i < |s| ==> IsHex(s[i])
    ensures FromHex(s).Some? && |FromHex(s).value| == |s| / 2
    ensures forall i :: 0 <= i < |s| / 2 ==> FromHex(s).value[i] == HexValue(s[2 * i]) * 16 + HexValue(s[2 * i + 1])
  {
    if s != "" {
      DigitsDecode(s[2..]);
      forall i | 0 < i < |s| / 2
        ensures FromHex(s).value[i] == HexValue(s[2 * i]) * 16 + HexValue(s[2 * i + 1])
      {
        assert s[2..][2 * (i - 1)] == s[2 * i] && s[2..][2 * (i - 1) + 1] == s[2 * i + 1];
      }
    }
  }

  lemma {:induction false} DecodedChars(s: string)
    requires FromHex(s).Some?
    ensures forall i :: 0 <= i < |s| ==> IsGap(s[i]) || IsHex(s[i])
  {
    if s != "" {
      var n := if IsGap(s[0]) then 1 else 2;
      DecodedChars(s[n..]);
      forall i | 0 <= i < |s| ensures IsGap(s[i]) || IsHex(s[i]) {
        assert i >= n ==> s[n..][i - n] == s[i];
      }
    }
  }

  /** A number, low byte first. */
  function Little(bytes: seq<nat>): nat {
    if bytes == [] then 0 else bytes[0] + 256 * Little(bytes[1..])
  }

  lemma {:induction false} LittleBound(bytes: seq<nat>)
    requires |bytes| <= 4 && forall i :: 0 <= i < |bytes| ==> bytes[i] < 256
    ensures Little(bytes) < WORD
  {
    assert |bytes| > 0 ==> Little(bytes) == bytes[0] + 256 * Little(bytes[1..]);
    assert |bytes| > 1 ==> Little(bytes[1..]) == bytes[1] + 256 * Little(bytes[1..][1..]);
    assert |bytes| > 2 ==> Little(bytes[1..][1..]) == bytes[2] + 256 * Little(bytes[1..][1..][1..]);
    assert |bytes| > 3 ==> bytes[1..][1..][1..] == [bytes[3]] && Little([bytes[3]]) == bytes[3];
  }

  function Slice(bytes: seq<nat>, from: nat, to: nat): seq<nat>
    requires from <= to
  {
    if |bytes| <= from then [] else if |bytes| <= to then bytes[from..] else bytes[from..to]
  }

  /** One of the three words, as it sits in memory: low byte first; a word that is not all
      there is made of the bytes that are. */
  function WordAt(uid: string, k: nat): (w: nat)
    requires Decodes(uid) && k < 3
    ensures w < WORD
  {
    var bytes := Slice(FromHex(uid).value, 4 * k, 4 * k + 4);
    LittleBound(bytes);
    Little(bytes)
  }

  /** The part of a serial before its first dash. */
  function Uid(serial: string): string {
    serial[..IndexOf(serial, '-', 0)]
  }

  function Sum(uid: string): (s: nat)
    requires Decodes(uid)
    ensures s < WORD
  {
    (WordAt(uid, 0) + WordAt(uid, 2)) % WORD
  }

  function Top(uid: string): (t: nat)
    requires Decodes(uid)
    ensures t < 0x1_0000
  {
    WordAt(uid, 1) / 0x1_0000
  }

  /** The sum of the outer words, then the top half of the middle one; nothing for an id of any
      other form. */
  function DfuSerial(serial: string): Maybe<string> {
    var uid := Uid(serial);
    if Decodes(uid) then Some(HexText(Sum(uid), 8) + HexText(Top(uid), 4)) else None
  }

  lemma Powers()
    ensures Pow16(4) == 0x1_0000 && Pow16(8) == WORD
  {
    assert Pow16(1) == 16 && Pow16(2) == 0x100 && Pow16(3) == 0x1000 && Pow16(4) == 0x1_0000;
    assert Pow16(5) == 0x10_0000 && Pow16(6) == 0x100_0000 && Pow16(7) == 0x1000_0000;
  }

  /** Two boards share a DFU serial exactly when the sums of their outer words agree modulo 2^32
      and so do the upper halves of their middle words. */
  lemma SameDfuSerial(a: string, b: string)
    requires Decodes(Uid(a)) && Decodes(Uid(b))
    ensures DfuSerial(a) == DfuSerial(b) <==> Sum(Uid(a)) == Sum(Uid(b)) && Top(Uid(a)) == Top(Uid(b))
  {
    Powers();
    var x, y := Uid(a), Uid(b);
    HexReads(Sum(x), 8);
    HexReads(Sum(y), 8);
    HexReads(Top(x), 4);
    HexReads(Top(y), 4);
    hide Uid, Sum, Top, HexText, HexNumber, Pow16, Decodes;
    if DfuSerial(a) == DfuSerial(b) {
      var s, t := HexText(Sum(x), 8) + HexText(Top(x), 4), HexText(Sum(y), 8) + HexText(Top(y), 4);
      assert s == t;
      assert s[..8] == HexText(Sum(x), 8) && t[..8] == HexText(Sum(y), 8);
      assert s[8..] == HexText(Top(x), 4) && t[8..] == HexText(Top(y), 4);
    }
  }

  // ---- which serial it is ----

  /** The digits are those of everybody else, and what is printed is in capitals. */
  lemma DigitsAre(v: nat)
    requires v < 16
    ensures "0123456789ABCDEF"[v] == HexDigit(v)
    ensures IsHex("0123456789abcdef"[v]) && HexValue("0123456789abcdef"[v]) == v
    ensures IsHex("0123456789ABCDEF"[v]) && HexValue("0123456789ABCDEF"[v]) == v
  {
  }

  /** Eight digits as the number they stand for in memory: two digits to a byte, low byte first. */
  function Memory(digits: string): nat
    requires |digits| == 8 && forall i :: 0 <= i < 8 ==> IsHex(digits[i])
  {
    HexValue(digits[0]) * 0x10 + HexValue(digits[1])
    + HexValue(digits[2]) * 0x1000 + HexValue(digits[3]) * 0x100
    + HexValue(digits[4]) * 0x10_0000 + HexValue(digits[5]) * 0x1_0000
    + HexValue(digits[6]) * 0x1000_0000 + HexValue(digits[7]) * 0x100_0000
  }

  lemma LittleFour(a: nat, b: nat, c: nat, d: nat)
    ensures Little([a, b, c, d]) == a + 0x100 * b + 0x1_0000 * c + 0x100_0000 * d
  {
    assert [a, b, c, d][1..] == [b, c, d] && [b, c, d][1..] == [c, d] && [c, d][1..] == [d] && [d][1..] == [];
    assert Little([d]) == d;
    assert Little([c, d]) == c + 256 * d;
    assert Little([b, c, d]) == b + 256 * c + 65536 * d;
  }

  lemma WordIsMemory(uid: string, k: nat)
    requires IsUid(uid) && k < 3
    ensures Decodes(uid) && WordAt(uid, k) == Memory(uid[8 * k..8 * k + 8])
  {
    UidDecodes(uid);
    var bytes := FromHex(uid).value;
    FourBytes(bytes, k);
    LittleFour(bytes[4 * k], bytes[4 * k + 1], bytes[4 * k + 2], bytes[4 * k + 3]);
    var word := uid[8 * k..8 * k + 8];
    assert forall i :: 0 <= i < 8 ==> word[i] == uid[8 * k + i];
    hide FromHex, HexValue, IsHex, Little, Slice;
    assert bytes[4 * k] == HexValue(word[0]) * 16 + HexValue(word[1]);
    assert bytes[4 * k + 1] == HexValue(word[2]) * 16 + HexValue(word[3]);
    assert bytes[4 * k + 2] == HexValue(word[4]) * 16 + HexValue(word[5]);
    assert bytes[4 * k + 3] == HexValue(word[6]) * 16 + HexValue(word[7]);
  }

  /** Two numbers printed one behind the other. */
  lemma {:induction false} HalvesRead(sum: nat, top: nat)
    requires sum < WORD && top < 0x1_0000
    ensures var s := HexText(sum, 8) + HexText(top, 4);
      && |s| == 12 && (forall i :: 0 <= i < 12 ==> IsHex(s[i]) && !('a' <= s[i] <= 'f'))
      && HexNumber(s[..8]) == sum && HexNumber(s[8..]) == top
  {
    Powers();
    HexReads(sum, 8);
    HexReads(top, 4);
    Capitals(sum, 8);
    Capitals(top, 4);
    var a, b := HexText(sum, 8), HexText(top, 4);
    hide HexNumber, HexText, Pow16;
    assert (a + b)[..8] == a && (a + b)[8..] == b;
    assert forall i :: 0 <= i < 12 ==> (a + b)[i] == if i < 8 then a[i] else b[i - 8];
  }

  lemma SumAndTop(uid: string)
    requires IsUid(uid)
    ensures Decodes(uid)
    ensures Sum(uid) == (Memory(uid[..8]) + Memory(uid[16..])) % 0x1_0000_0000
    ensures Top(uid) == Memory(uid[8..16]) / 0x1_0000
  {
    WordIsMemory(uid, 0);
    WordIsMemory(uid, 1);
    WordIsMemory(uid, 2);
    assert uid[0..8] == uid[..8] && uid[16..24] == uid[16..];
    hide Memory, WordAt;
  }

  /** For 24 digits, whatever follows a dash: the first eight digits of the answer are the sum of the
      outer words modulo 2^32, the last four the upper half of the middle word. */
  lemma DfuSerialReads(uid: string, rest: string)
    requires IsUid(uid) && (rest == "" || rest[0] == '-')
    ensures DfuSerial(uid + rest).Some?
    ensures var s := DfuSerial(uid + rest).value;
      && |s| == 12 && (forall i :: 0 <= i < 12 ==> IsHex(s[i]) && !('a' <= s[i] <= 'f'))
      && HexNumber(s[..8]) == (Memory(uid[..8]) + Memory(uid[16..])) % 0x1_0000_0000
      && HexNumber(s[8..]) == Memory(uid[8..16]) / 0x1_0000
  {
    UidBeforeDash(uid, rest);
    SumAndTop(uid);
    HalvesRead(Sum(uid), Top(uid));
    hide Memory, HexNumber, HexText, Sum, Top, Uid, Decodes;
  }

  lemma UidBeforeDash(uid: string, rest: string)
    requires IsUid(uid) && (rest == "" || rest[0] == '-')
    ensures Uid(uid + rest) == uid
  {
    var s := uid + rest;
    var k := IndexOf(s, '-', 0);
    assert !IsHex('-');
    assert forall i :: 0 <= i < 24 ==> s[i] == uid[i];
    assert rest != "" ==> s[24] == '-';
    assert k == 24 && s[..24] == uid;
  }

  lemma {:induction false} Capitals(n: nat, k: nat)
    ensures forall i :: 0 <= i < k ==> !('a' <= HexText(n, k)[i] <= 'f')
    decreases k
  {
    if k > 0 {
      Capitals(n / 16, k - 1);
    }
  }

  lemma DocumentedWords()
    ensures Memory("27000E00") == 0x000E0027 && Memory("05513434") == 0x34345105 && Memory("38333339") == 0x39333338
  {
  }

  lemma DocumentedSlices()
    ensures var uid := "27000E000551343438333339";
      && uid + "-if00" == "27000E000551343438333339-if00" && IsUid(uid)
      && uid[..8] == "27000E00" && uid[8..16] == "05513434" && uid[16..] == "38333339"
  {
  }

  lemma HexNext(n: nat, k: nat, s: string, d: nat)
    requires HexText(n, k) == s && d < 16
    ensures HexText(16 * n + d, k + 1) == s + [HexDigit(d)]
  {
    assert (16 * n + d) / 16 == n && (16 * n + d) % 16 == d;
  }

  lemma DocumentedTop()
    ensures HexText(0x3434, 4) == "3434"
  {
    HexNext(0, 0, "", 3);
    HexNext(0x3, 1, "3", 4);
    HexNext(0x34, 2, "34", 3);
    HexNext(0x343, 3, "343", 4);
  }

  lemma DocumentedSum()
    ensures HexText(0x3941335F, 8) == "3941335F"
  {
    HexNext(0, 0, "", 3);
    HexNext(0x3, 1, "3", 9);
    HexNext(0x39, 2, "39", 4);
    HexNext(0x394, 3, "394", 1);
    HexNext(0x3941, 4, "3941", 3);
    HexNext(0x39413, 5, "39413", 3);
    HexNext(0x394133, 6, "394133", 5);
    HexNext(0x3941335, 7, "3941335", 15);
    hide HexText;
  }

  /** A board running firmware, and the same board in DFU mode. */
  lemma SameBoard()
    ensures DfuSerial("27000E000551343438333339-if00") == Some("3941335F3434")
  {
    hide Memory, Sum, Top, Uid, Decodes, HexText, IsUid;
    DocumentedSlices();
    var uid: string := "27000E000551343438333339";
    DocumentedWords();
    UidBeforeDash(uid, "-if00");
    SumAndTop(uid);
    DocumentedSum();
    DocumentedTop();
    assert "3941335F" + "3434" == "3941335F3434";
  }

  /** The serial has a DFU form exactly if 24 characters stand before its first dash, or are all
      of it, and they can be decoded; without white space among them, if they are 24 digits. */
  lemma DfuSerialIff(serial: string)
    ensures DfuSerial(serial).Some? <==>
      |serial| >= 24 && '-' !in serial[..24] && FromHex(serial[..24]).Some? && (|serial| == 24 || serial[24] == '-')
    ensures |serial| >= 24 && (forall i :: 0 <= i < 24 ==> serial[i] != ' ' && !(9 <= serial[i] as int <= 13)) ==>
      ('-' !in serial[..24] && FromHex(serial[..24]).Some? <==> IsUid(serial[..24]))
  {
    var k := IndexOf(serial, '-', 0);
    if |serial| >= 24 {
      var uid := serial[..24];
      assert k < 24 ==> uid[k] == '-';
      if FromHex(uid).Some? {
        DecodedChars(uid);
        assert forall i :: 0 <= i < 24 ==> serial[i] == uid[i];
      }
      if IsUid(uid) {
        DigitsDecode(uid);
        assert !IsHex('-');
      }
    }
  }

  /** The same id with its outer words exchanged. */
  function Swapped(uid: string): string
    requires |uid| == 24
  {
    uid[16..] + uid[8..16] + uid[..8]
  }

  /** So a DFU serial names no board for certain: any id whose outer words differ shares its own
      with another id. */
  lemma SwapCollides(uid: string)
    requires IsUid(uid)
    ensures IsUid(Swapped(uid)) && DfuSerial(Swapped(uid)) == DfuSerial(uid)
    ensures uid[..8] != uid[16..] ==> Swapped(uid) != uid
  {
    SwappedIsUid(uid);
    hide WordAt, IsUid, Decodes, DfuSerial, Swapped, Uid, Sum, Top;
    var other := Swapped(uid);
    NoDash(uid);
    NoDash(other);
    WordMoves(other, 0, uid, 2);
    WordMoves(other, 1, uid, 1);
    WordMoves(other, 2, uid, 0);
    SameSums(uid, other);
    SameDfuSerial(uid, other);
    assert uid[..8] != uid[16..] ==> other[..8] != uid[..8];
  }

  lemma {:induction false} UidDecodes(uid: string)
    requires IsUid(uid)
    ensures Decodes(uid) && |FromHex(uid).value| == 12
    ensures forall i :: 0 <= i < 12 ==> FromHex(uid).value[i] == HexValue(uid[2 * i]) * 16 + HexValue(uid[2 * i + 1])
  {
    DigitsDecode(uid);
  }

  lemma SameSums(uid: string, other: string)
    requires Decodes(uid) && Decodes(other)
    requires WordAt(other, 0) == WordAt(uid, 2) && WordAt(other, 1) == WordAt(uid, 1)
      && WordAt(other, 2) == WordAt(uid, 0)
    ensures Sum(uid) == Sum(other) && Top(uid) == Top(other)
  {
    hide WordAt, Decodes;
  }

  lemma SwappedIsUid(uid: string)
    requires IsUid(uid)
    ensures IsUid(Swapped(uid)) && |Swapped(uid)| == |uid| == 24
    ensures Swapped(uid)[..8] == uid[16..] && Swapped(uid)[0..8] == uid[16..24]
    ensures Swapped(uid)[8..16] == uid[8..16] && Swapped(uid)[16..24] == uid[0..8]
  {
  }

  lemma NoDash(uid: string)
    requires IsUid(uid)
    ensures Uid(uid) == uid
  {
    var k := IndexOf(uid, '-', 0);
    assert k < |uid| ==> !IsHex('-');
    assert uid[..|uid|] == uid;
  }

  lemma {:induction false} ByteMoves(a: string, i: nat, b: string, k: nat, n: nat)
    requires IsUid(a) && IsUid(b) && i < 3 && k < 3 && n < 4 && a[8 * i..8 * i + 8] == b[8 * k..8 * k + 8]
    ensures Decodes(a) && Decodes(b) && |FromHex(a).value| == |FromHex(b).value| == 12
    ensures FromHex(a).value[4 * i + n] == FromHex(b).value[4 * k + n]
  {
    UidDecodes(a);
    UidDecodes(b);
    hide FromHex, HexValue, IsHex;
    assert a[2 * (4 * i + n)] == a[8 * i..8 * i + 8][2 * n];
    assert b[2 * (4 * k + n)] == b[8 * k..8 * k + 8][2 * n];
    assert a[2 * (4 * i + n) + 1] == a[8 * i..8 * i + 8][2 * n + 1];
    assert b[2 * (4 * k + n) + 1] == b[8 * k..8 * k + 8][2 * n + 1];
  }

  lemma FourBytes(bytes: seq<nat>, k: nat)
    requires |bytes| == 12 && k < 3
    ensures Slice(bytes, 4 * k, 4 * k + 4) == [bytes[4 * k], bytes[4 * k + 1], bytes[4 * k + 2], bytes[4 * k + 3]]
  {
  }

  /** Equal digits in the place of a word make equal words. */
  lemma WordMoves(a: string, i: nat, b: string, k: nat)
    requires IsUid(a) && IsUid(b) && i < 3 && k < 3 && a[8 * i..8 * i + 8] == b[8 * k..8 * k + 8]
    ensures Decodes(a) && Decodes(b) && WordAt(a, i) == WordAt(b, k)
  {
    ByteMoves(a, i, b, k, 0);
    ByteMoves(a, i, b, k, 1);
    ByteMoves(a, i, b, k, 2);
    ByteMoves(a, i, b, k, 3);
    hide FromHex, IsUid, Little, Slice;
    FourBytes(FromHex(a).value, i);
    FourBytes(FromHex(b).value, k);
    assert 4 * i + 0 == 4 * i && 4 * k + 0 == 4 * k;
  }
}
