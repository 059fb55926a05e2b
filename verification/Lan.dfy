/** The LAN gate of src/network/lan.hpp.  Addresses are integers below 2^32 in host order. */
module Lan {
  import opened Wrappers
  import opened Bits
  import opened Bytes

  // ---------- dotted quads ----------

  predicate IsDigit(c: char) { '0' <= c <= '9' }

  predicate Digits(f: string) { forall c :: c in f ==> IsDigit(c) }

  function DigitValue(c: char): nat { if IsDigit(c) then (c - '0') as nat else 0 }

  /** The decimal value of a digit string. */
  function Decimal(f: string): nat {
    if f == "" then 0 else Decimal(f[..|f| - 1]) * 10 + DigitValue(f[|f| - 1])
  }

  /** The fields between the dots. */
  function Split(s: string): (fields: seq<string>)
    ensures fields != []
  {
    if s == "" then [""]
    else
      var fields := Split(s[..|s| - 1]);
      var c := s[|s| - 1];
      if c == '.' then fields + [""] else fields[|fields| - 1 := fields[|fields| - 1] + [c]]
  }

  /** What a field may look like while it is still being read, and when it is over. */
  predicate Partial(f: string) { |f| <= 3 && Digits(f) && Decimal(f) <= 255 }

  predicate Octet(f: string) { f != "" && Partial(f) }

  function Address(a: nat, b: nat, c: nat, d: nat): nat {
    ((a * 256 + b) * 256 + c) * 256 + d
  }

  /** Reference: four dot-separated octets. */
  function Quad(fields: seq<string>): Option<nat> {
    if |fields| == 4 && forall k :: 0 <= k < 4 ==> Octet(fields[k]) then
      Some(Address(Decimal(fields[0]), Decimal(fields[1]), Decimal(fields[2]), Decimal(fields[3])))
    else
      None
  }

  /** No continuation of a string with these fields is an address. */
  predicate Hopeless(fields: seq<string>)
    requires fields != []
  {
    || |fields| > 4
    || !Partial(fields[|fields| - 1])
    || exists k :: 0 <= k < |fields| - 1 && !Octet(fields[k])
  }

  lemma SplitStep(s: string, i: nat)
    requires i < |s|
    ensures var fields := Split(s[..i]);
            Split(s[..i + 1])
            == if s[i] == '.' then fields + [""] else fields[|fields| - 1 := fields[|fields| - 1] + [s[i]]]
  {
    assert s[..i + 1][..i] == s[..i];
  }

  lemma LongerStaysBad(f: string, c: char)
    requires !Partial(f)
    ensures !Partial(f + [c])
  {
    var g := f + [c];
    assert g[..|g| - 1] == f;
    if Digits(g) {
      assert Digits(f) by {
        forall x | x in f ensures IsDigit(x) { assert x in g; }
      }
    }
  }

  lemma {:induction false} HopelessForever(s: string, i: nat)
    requires i <= |s| && Hopeless(Split(s[..i]))
    ensures Quad(Split(s)).None?
    decreases |s| - i
  {
    if i == |s| {
      assert s[..i] == s;
    } else {
      var fields := Split(s[..i]);
      var next := Split(s[..i + 1]);
      SplitStep(s, i);
      if !Partial(fields[|fields| - 1]) {
        LongerStaysBad(fields[|fields| - 1], s[i]);
        assert s[i] == '.' ==> !Octet(next[|fields| - 1]);
      }
      assert forall k | 0 <= k < |fields| - 1 :: next[k] == fields[k];
      HopelessForever(s, i + 1);
    }
  }

  lemma DotRead(fields: seq<string>)
    requires fields != [] && !Hopeless(fields)
    ensures Hopeless(fields + [""]) <==> fields[|fields| - 1] == "" || |fields| > 3
  {
    var next := fields + [""];
    assert forall k | 0 <= k < |fields| :: next[k] == fields[k];
    assert Octet(fields[|fields| - 1]) <==> fields[|fields| - 1] != "";
  }

  lemma CharRead(fields: seq<string>, c: char)
    requires fields != [] && !Hopeless(fields)
    ensures var f := fields[|fields| - 1] + [c];
            && Decimal(f) == Decimal(fields[|fields| - 1]) * 10 + DigitValue(c)
            && (Hopeless(fields[|fields| - 1 := f]) <==> !IsDigit(c) || |f| > 3 || Decimal(f) > 255)
  {
    var f := fields[|fields| - 1] + [c];
    var next := fields[|fields| - 1 := f];
    assert f[..|f| - 1] == fields[|fields| - 1];
    assert c in f;
    assert forall k | 0 <= k < |fields| - 1 :: next[k] == fields[k];
  }

  lemma AllRead(fields: seq<string>)
    requires fields != [] && !Hopeless(fields)
    ensures Quad(fields)
         == if |fields| == 4 && fields[3] != "" then
              Some(Address(Decimal(fields[0]), Decimal(fields[1]), Decimal(fields[2]), Decimal(fields[3])))
            else None
    ensures |fields| == 4 ==> forall k :: 0 <= k < 4 ==> Decimal(fields[k]) <= 255
  {
    hide Decimal;
  }

  lemma NothingRead()
    ensures Split("") == [""] && !Hopeless([""]) && Decimal("") == 0
  {
  }

  lemma FourOctets(a: nat, b: nat, c: nat, d: nat)
    requires b < 256 && c < 256 && d < 256
    ensures Or(Or(Or(a * 0x100_0000, b * 0x1_0000), c * 0x100), d) == Address(a, b, c, d)
  {
    hide Or;
    OrBytes(a, b, c, d);
  }

  /** The single pass over the characters computes the reference answer, including every rejection. */
  method ParseIPv4(s: string) returns (r: Option<nat>)
    ensures r == Quad(Split(s))
  {
    hide Split, Hopeless, Decimal, Quad, Address, Or;
    NothingRead();
    var parts := new nat[4](_ => 0);
    var n, cur, digits := 0, 0, 0;
    ghost var fields := [""];
    assert s[..0] == "";
    for i := 0 to |s|
      invariant fields == Split(s[..i]) && !Hopeless(fields)
      invariant n == |fields| - 1 <= 3
      invariant cur == Decimal(fields[n]) && digits == |fields[n]|
      invariant forall k :: 0 <= k < n ==> parts[k] == Decimal(fields[k])
    {
      var c := s[i];
      SplitStep(s, i);
      if c == '.' {
        DotRead(fields);
        if digits == 0 || n >= 3 {
          HopelessForever(s, i + 1);
          return None;
        }
        parts[n] := cur;
        n, cur, digits := n + 1, 0, 0;
        fields := fields + [""];
      } else if IsDigit(c) {
        CharRead(fields, c);
        cur := cur * 10 + DigitValue(c);
        digits := digits + 1;
        if digits > 3 || cur > 255 {
          HopelessForever(s, i + 1);
          return None;
        }
        fields := fields[n := fields[n] + [c]];
      } else {
        CharRead(fields, c);
        HopelessForever(s, i + 1);
        return None;
      }
    }
    assert s[..|s|] == s;
    AllRead(fields);
    if digits == 0 || n != 3 {
      return None;
    }
    parts[3] := cur;
    FourOctets(parts[0], parts[1], parts[2], parts[3]);
    return Some(Or(Or(Or(parts[0] * 0x100_0000, parts[1] * 0x1_0000), parts[2] * 0x100), parts[3]));
  }

  lemma {:induction false} SplitAppend(s: string, f: string)
    requires '.' !in f
    ensures Split(s + f) == Split(s)[|Split(s)| - 1 := Split(s)[|Split(s)| - 1] + f]
  {
    if f == "" {
      assert s + f == s;
      assert Split(s)[|Split(s)| - 1] + f == Split(s)[|Split(s)| - 1];
    } else {
      var g, c := f[..|f| - 1], f[|f| - 1];
      assert (s + f)[..|s + f| - 1] == s + g;
      assert f == g + [c];
      SplitAppend(s, g);
      assert Split(s)[|Split(s)| - 1] + g + [c] == Split(s)[|Split(s)| - 1] + f;
    }
  }

  lemma SplitField(s: string, f: string)
    requires Digits(f)
    ensures Split(s + "." + f) == Split(s) + [f]
  {
    NoDot(f);
    assert (s + ".")[..|s|] == s;
    assert "" + f == f;
    SplitAppend(s + ".", f);
  }

  function Dotted(a: string, b: string, c: string, d: string): string {
    a + "." + b + "." + c + "." + d
  }

  lemma NoDot(f: string)
    requires Digits(f)
    ensures '.' !in f
  {
    assert '.' in f ==> IsDigit('.');
  }

  lemma SplitDotted(a: string, b: string, c: string, d: string)
    requires Digits(a) && Digits(b) && Digits(c) && Digits(d)
    ensures Split(Dotted(a, b, c, d)) == [a, b, c, d]
  {
    NoDot(a);
    SplitAppend("", a);
    assert "" + a == a;
    assert Split("") == [""];
    SplitField(a, b);
    SplitField(a + "." + b, c);
    SplitField(a + "." + b + "." + c, d);
  }

  function Join(fields: seq<string>): string
    requires fields != []
  {
    if |fields| == 1 then fields[0] else Join(fields[..|fields| - 1]) + "." + fields[|fields| - 1]
  }

  lemma {:induction false} JoinSplit(s: string)
    ensures Join(Split(s)) == s
  {
    if s != "" {
      var t, c := s[..|s| - 1], s[|s| - 1];
      JoinSplit(t);
      var fields := Split(t);
      var n := |fields| - 1;
      assert s == t + [c];
      if c == '.' {
        assert (fields + [""])[..|fields|] == fields;
        assert Join(fields + [""]) == Join(fields) + "." + "";
      } else {
        var next := fields[n := fields[n] + [c]];
        assert next[..n] == fields[..n];
        if n > 0 {
          assert Join(fields[..n]) + "." + (fields[n] + [c]) == Join(fields[..n]) + "." + fields[n] + [c];
        }
      }
    }
  }

  lemma JoinFour(f: seq<string>)
    requires |f| == 4
    ensures Join(f) == Dotted(f[0], f[1], f[2], f[3])
  {
    assert f[..2][..1] == f[..1] && f[..3][..2] == f[..2];
    assert Join(f[..1]) == f[0];
    assert Join(f[..2]) == f[0] + "." + f[1];
    assert Join(f[..3]) == Join(f[..2]) + "." + f[2];
  }

  predicate Field(f: string) {
    1 <= |f| <= 3 && (forall c :: c in f ==> '0' <= c <= '9') && Decimal(f) <= 255
  }

  /** s is a.b.c.d, and the four fields make up v. */
  predicate Reads(s: string, v: nat, a: string, b: string, c: string, d: string) {
    && Field(a) && Field(b) && Field(c) && Field(d)
    && s == a + "." + b + "." + c + "." + d
    && v == Decimal(a) * 0x100_0000 + Decimal(b) * 0x1_0000 + Decimal(c) * 0x100 + Decimal(d)
  }

  lemma ReadsOctets(s: string, v: nat, a: string, b: string, c: string, d: string)
    ensures Reads(s, v, a, b, c, d) <==>
            && Octet(a) && Octet(b) && Octet(c) && Octet(d)
            && s == Dotted(a, b, c, d)
            && v == Address(Decimal(a), Decimal(b), Decimal(c), Decimal(d))
  {
    hide Decimal;
    assert forall f {:trigger Octet(f)} :: Field(f) <==> Octet(f);
    Base256(Decimal(a), Decimal(b), Decimal(c), Decimal(d));
  }

  lemma Base256(a: nat, b: nat, c: nat, d: nat)
    ensures Address(a, b, c, d) == a * 0x100_0000 + b * 0x1_0000 + c * 0x100 + d
  {
  }

  /** Exactly the strings a.b.c.d of four decimal fields of one to three digits, each at most 255. */
  lemma QuadGrammar(s: string, v: nat)
    ensures Quad(Split(s)) == Some(v) <==> exists a, b, c, d :: Reads(s, v, a, b, c, d)
  {
    hide Split, Join, Dotted, Decimal, Reads;
    if Quad(Split(s)) == Some(v) {
      var f := Split(s);
      JoinSplit(s);
      JoinFour(f);
      ReadsOctets(s, v, f[0], f[1], f[2], f[3]);
      assert Reads(s, v, f[0], f[1], f[2], f[3]);
    }
    if a, b, c, d :| Reads(s, v, a, b, c, d) {
      ReadsOctets(s, v, a, b, c, d);
      SplitDotted(a, b, c, d);
    }
  }

  /** The decimal values of fields of one, two and three digits. */
  lemma DecimalValues(a: nat, b: nat, c: nat)
    requires a < 10 && b < 10 && c < 10
    ensures DigitValue('0' + a as char) == a
    ensures Decimal(['0' + a as char]) == a
    ensures Decimal(['0' + a as char, '0' + b as char]) == 10 * a + b
    ensures Decimal(['0' + a as char, '0' + b as char, '0' + c as char]) == 100 * a + 10 * b + c
  {
    var x, y, z := '0' + a as char, '0' + b as char, '0' + c as char;
    assert [x][..0] == [];
    assert [x, y][..1] == [x];
    assert [x, y, z][..2] == [x, y];
  }

  function DigitChar(n: nat): char
    requires n < 10
  {
    '0' + n as char
  }

  function Print(n: nat): string
    requires n < 256
  {
    if n < 10 then [DigitChar(n)] else Print(n / 10) + [DigitChar(n % 10)]
  }

  function PrintAddress(ip: uint32): string {
    Dotted(Print(ip / 0x100_0000), Print(ip / 0x1_0000 % 256), Print(ip / 0x100 % 256), Print(ip % 256))
  }

  lemma {:induction false} PrintDecimal(n: nat)
    requires n < 256
    ensures Digits(Print(n)) && Decimal(Print(n)) == n && 1 <= |Print(n)|
    ensures n < 10 ==> |Print(n)| == 1
    ensures n < 100 ==> |Print(n)| <= 2
    ensures |Print(n)| <= 3
  {
    if n < 10 {
      assert Decimal([DigitChar(n)]) == Decimal([DigitChar(n)][..0]) * 10 + n;
    } else {
      PrintDecimal(n / 10);
      assert Print(n)[..|Print(n)| - 1] == Print(n / 10);
    }
  }

  /** Parsing the dotted print of any address gives the address back. */
  lemma ParsePrint(ip: uint32)
    ensures Quad(Split(PrintAddress(ip))) == Some(ip)
  {
    hide Split, Print, Decimal, Octet;
    PrintOctet(ip / 0x100_0000);
    PrintOctet(ip / 0x1_0000 % 256);
    PrintOctet(ip / 0x100 % 256);
    PrintOctet(ip % 256);
    SplitDotted(Print(ip / 0x100_0000), Print(ip / 0x1_0000 % 256), Print(ip / 0x100 % 256), Print(ip % 256));
    OctetsOf(ip);
  }

  lemma PrintOctet(n: nat)
    requires n < 256
    ensures Octet(Print(n)) && Digits(Print(n)) && Decimal(Print(n)) == n
  {
    PrintDecimal(n);
  }

  lemma OctetsOf(ip: uint32)
    ensures Address(ip / 0x100_0000, ip / 0x1_0000 % 256, ip / 0x100 % 256, ip % 256) == ip
  {
    DivDiv(ip, 256);
    DivDiv(ip, 0x1_0000);
    DivDiv(ip / 256, 256);
  }

  // ---------- private ranges ----------

  predicate IsPrivateIPv4(ip: uint32) {
    || And(ip, 0xFF00_0000) == 0x0A00_0000
    || And(ip, 0xFFF0_0000) == 0xAC10_0000
    || And(ip, 0xFFFF_0000) == 0xC0A8_0000
    || And(ip, 0xFFFF_0000) == 0xA9FE_0000
    || And(ip, 0xFF00_0000) == 0x7F00_0000
  }

  /** The gate admits exactly the ranges of RFC 1918 section 3 (10/8, 172.16/12, 192.168/16), of RFC 3927
      section 2.1 (169.254/16) and the loopback block of RFC 1122 section 3.2.1.3 (127/8). */
  lemma PrivateRanges(a: byte, b: byte, c: byte, d: byte)
    ensures IsPrivateIPv4(Address(a, b, c, d)) <==>
            || a == 10
            || (a == 172 && 16 <= b <= 31)
            || (a == 192 && b == 168)
            || (a == 169 && b == 254)
            || a == 127
  {
    hide And;
    var ip: uint32 := Address(a, b, c, d);
    Netmasks(ip);
    assert ip / 0x1_0000 == a as int * 256 + b;
    assert ip / 0x10_0000 == a as int * 16 + b / 16;
    assert ip / 0x100_0000 == a;
  }
}
