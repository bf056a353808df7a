/**
 The URL-safe base64 alphabet without padding (section 5 of RFC 4648), strict as
 the link reader's engine is: no padding, and the bits left over are zero.
 */
module Base64 {
  import opened Commun

  type Octets = seq<u8>
  type sextet = n: nat | n < 64

  function Symbole(n: sextet): char {
    if n < 26 then ('A' as int + n) as char
    else if n < 52 then ('a' as int + n - 26) as char
    else if n < 62 then ('0' as int + n - 52) as char
    else if n == 62 then '-'
    else '_'
  }

  function Valeur(c: char): Option<sextet> {
    if 'A' <= c <= 'Z' then Some(c as int - 'A' as int)
    else if 'a' <= c <= 'z' then Some(c as int - 'a' as int + 26)
    else if '0' <= c <= '9' then Some(c as int - '0' as int + 52)
    else if c == '-' then Some(62)
    else if c == '_' then Some(63)
    else None
  }

  predicate Alphabet(s: string) { forall i :: 0 <= i < |s| ==> Valeur(s[i]).Some? }

  /** Three bytes as four values of six bits. */
  function Quatre(a: u8, b: u8, c: u8): seq<sextet> {
    [a / 4, a as int % 4 * 16 + b as int / 16, b as int % 16 * 4 + c as int / 64, c % 64]
  }

  function Octet1(w: sextet, x: sextet): u8 { w as int * 4 + x as int / 16 }
  function Octet2(x: sextet, y: sextet): u8 { x as int % 16 * 16 + y as int / 4 }
  function Octet3(y: sextet, z: sextet): u8 { y as int % 4 * 64 + z as int }

  function Trois(w: sextet, x: sextet, y: sextet, z: sextet): Octets { [Octet1(w, x), Octet2(x, y), Octet3(y, z)] }

  function Sextets(b: Octets): seq<sextet> {
    if |b| == 0 then []
    else if |b| == 1 then Quatre(b[0], 0, 0)[..2]
    else if |b| == 2 then Quatre(b[0], b[1], 0)[..3]
    else Quatre(b[0], b[1], b[2]) + Sextets(b[3..])
  }

  /** The bytes, when the length is possible and the bits left over are zero. */
  function Lus(s: seq<sextet>): Option<Octets> {
    if |s| == 0 then Some([])
    else if |s| == 1 then None
    else if |s| == 2 then (if s[1] % 16 == 0 then Some([Octet1(s[0], s[1])]) else None)
    else if |s| == 3 then (if s[2] % 4 == 0 then Some([Octet1(s[0], s[1]), Octet2(s[1], s[2])]) else None)
    else match Lus(s[4..]) case None => None case Some(suite) => Some(Trois(s[0], s[1], s[2], s[3]) + suite)
  }

  function Texte(s: seq<sextet>): string { seq(|s|, i requires 0 <= i < |s| => Symbole(s[i])) }

  function Valeurs(t: string): seq<sextet>
    requires Alphabet(t)
  { seq(|t|, i requires 0 <= i < |t| => Valeur(t[i]).value) }

  function Encoder(b: Octets): string { Texte(Sextets(b)) }

  function Decoder(t: string): Option<Octets> { if Alphabet(t) then Lus(Valeurs(t)) else None }

  lemma TroisQuatre(a: u8, b: u8, c: u8)
    ensures var q := Quatre(a, b, c);
            Octet1(q[0], q[1]) == a && Octet2(q[1], q[2]) == b && Octet3(q[2], q[3]) == c
  {
  }

  /** Each byte, split where the sextets meet in it. */
  lemma Coupures(w: sextet, x: sextet, y: sextet, z: sextet)
    ensures Octet1(w, x) / 4 == w && Octet1(w, x) % 4 == x / 16
    ensures Octet2(x, y) / 16 == x % 16 && Octet2(x, y) % 16 == y / 4
    ensures Octet3(y, z) / 64 == y % 4 && Octet3(y, z) % 64 == z
  {
  }

  lemma Jointures(x: sextet)
    ensures x / 16 * 16 + x % 16 == x && x / 4 * 4 + x % 4 == x
  {
  }

  lemma QuatreTrois(w: sextet, x: sextet, y: sextet, z: sextet)
    ensures Quatre(Octet1(w, x), Octet2(x, y), Octet3(y, z)) == [w, x, y, z]
  {
    Coupures(w, x, y, z);
    Jointures(x);
    Jointures(y);
    hide Octet1, Octet2, Octet3;
  }

  lemma ResteNul(x: sextet)
    ensures x % 16 == 0 ==> Octet2(x, 0) == 0
    ensures x % 4 == 0 ==> Octet3(x, 0) == 0
  {
  }

  lemma DeuxLus(w: sextet, x: sextet)
    requires x % 16 == 0
    ensures Quatre(Octet1(w, x), 0, 0)[..2] == [w, x]
  {
  }

  lemma TroisLus(w: sextet, x: sextet, y: sextet)
    requires y % 4 == 0
    ensures Quatre(Octet1(w, x), Octet2(x, y), 0)[..3] == [w, x, y]
  {
    hide Quatre, Octet1, Octet2, Octet3;
    ResteNul(y);
    QuatreTrois(w, x, y, 0);
  }

  lemma {:induction false} LusSextets(b: Octets)
    ensures Lus(Sextets(b)) == Some(b)
  {
    if |b| >= 3 {
      var q, s := Quatre(b[0], b[1], b[2]), Sextets(b[3..]);
      assert (q + s)[4..] == s;
      LusSextets(b[3..]);
      TroisQuatre(b[0], b[1], b[2]);
      assert b == [b[0], b[1], b[2]] + b[3..];
    } else if |b| == 2 {
      TroisQuatre(b[0], b[1], 0);
      assert b == [b[0], b[1]];
    } else if |b| == 1 {
      TroisQuatre(b[0], 0, 0);
      assert b == [b[0]];
    }
  }

  lemma {:induction false} SextetsLus(s: seq<sextet>)
    requires Lus(s).Some?
    ensures Sextets(Lus(s).value) == s
  {
    hide Quatre, Octet1, Octet2, Octet3;
    if |s| >= 4 {
      var o, suite := Trois(s[0], s[1], s[2], s[3]), Lus(s[4..]).value;
      assert (o + suite)[3..] == suite;
      SextetsLus(s[4..]);
      QuatreTrois(s[0], s[1], s[2], s[3]);
      assert s == [s[0], s[1], s[2], s[3]] + s[4..];
    } else if |s| == 3 {
      TroisLus(s[0], s[1], s[2]);
      assert s == [s[0], s[1], s[2]];
    } else if |s| == 2 {
      DeuxLus(s[0], s[1]);
      assert s == [s[0], s[1]];
    }
  }

  lemma TexteLu(s: seq<sextet>)
    ensures Alphabet(Texte(s)) && Valeurs(Texte(s)) == s
  {
  }

  lemma TexteRelu(t: string)
    requires Alphabet(t)
    ensures Texte(Valeurs(t)) == t
  {
  }

  /** Decoding inverts encoding. */
  lemma DecoderEncoder(b: Octets)
    ensures Decoder(Encoder(b)) == Some(b)
  {
    TexteLu(Sextets(b));
    LusSextets(b);
  }

  /** One text per sequence of bytes: what decodes is what encoding writes. */
  lemma EncoderDecoder(t: string, b: Octets)
    ensures Decoder(t) == Some(b) <==> t == Encoder(b)
  {
    DecoderEncoder(b);
    if Decoder(t) == Some(b) {
      SextetsLus(Valeurs(t));
      TexteRelu(t);
    }
  }

  /** The length of an encoding. */
  lemma {:induction false} LongueurEncodee(b: Octets)
    ensures |Encoder(b)| == (|b| * 4 + 2) / 3
  {
    if |b| >= 3 {
      LongueurEncodee(b[3..]);
    }
  }

  /** The alphabet itself, in ASCII: capitals, small letters, digits, `-` and `_`. */
  lemma AlphabetEcrit(n: sextet)
    ensures Symbole(n) as int == if n < 26 then 65 + n else if n < 52 then 71 + n else if n < 62 then n - 4 else if n == 62 then 45 else 95
  {
  }

  /** The first vectors of section 10 of RFC 4648, without their padding. */
  lemma VecteursDuRfc()
    ensures Encoder([102]) == "Zg" && Encoder([102, 111]) == "Zm8" && Encoder([102, 111, 111]) == "Zm9v"
    ensures Encoder([102, 111, 111, 98]) == "Zm9vYg"
  {
    assert Sextets([102]) == [25, 32];
    assert Sextets([102, 111]) == [25, 38, 60];
    assert [102, 111, 111][3..] == [] && [102, 111, 111, 98][3..] == [98];
    assert Sextets([98]) == [24, 32];
    assert Sextets([102, 111, 111]) == [25, 38, 61, 47];
    assert Sextets([102, 111, 111, 98]) == [25, 38, 61, 47] + [24, 32];
  }
}
