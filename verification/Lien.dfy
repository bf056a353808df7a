/**
 The share link a person pastes (crates/bifrost-amorce/src/colle.rs:92-120 and
 154-321). Decryption is an unknown partial function, whether bytes are text an
 unknown predicate; text lengths count characters, which are bytes in every text
 the decoder accepts.
 */
module Lien {
  import opened Commun
  import opened Base64

  const PREFIXE := "bifrost1."
  const PREFIXE_CHIFFRE := "bifrost1c."
  const PLAFOND := 65536

  datatype Recu = Recu(profil: Octets, signature: Octets)

  /** What the reader calls and this model does not define: age with a passphrase,
      the UTF-8 check, and the text of the clear link. */
  datatype Outils = Outils(dechiffrer: (Octets, string) -> Option<string>, estTexte: Octets -> bool)

  /** The characters of the Unicode property White_Space. */
  predicate Blanc(c: char) {
    || '\U{0009}' <= c <= '\U{000D}' || c == ' ' || c == '\U{0085}' || c == '\U{00A0}' || c == '\U{1680}'
    || '\U{2000}' <= c <= '\U{200A}' || c == '\U{2028}' || c == '\U{2029}' || c == '\U{202F}' || c == '\U{205F}' || c == '\U{3000}'
  }

  function SansBlancs(s: string): string {
    if s == [] then [] else (if Blanc(s[0]) then [] else [s[0]]) + SansBlancs(s[1..])
  }

  function SansTete(s: string): string { if s != [] && Blanc(s[0]) then SansTete(s[1..]) else s }

  /** `ecrire`. */
  function Ecrire(profil: Octets, signature: Octets): string {
    PREFIXE + Encoder(profil) + "." + Encoder(signature)
  }

  /** `decoder`: the cap is checked before decoding. */
  function DecoderMorceau(m: string): Result<Octets> {
    if |m| > PLAFOND then Err("au-dela de ce qui se colle")
    else match Decoder(m) case None => Err("illisible") case Some(b) => Ok(b)
  }

  /** `split_once('.')`: before and after the first dot. */
  function CouperAuPoint(s: string): (r: Option<(string, string)>)
    ensures r.Some? ==> s == r.value.0 + "." + r.value.1 && '.' !in r.value.0
    ensures r.None? ==> '.' !in s
  {
    if s == [] then None
    else if s[0] == '.' then Some(([], s[1..]))
    else match CouperAuPoint(s[1..]) case None => None case Some((a, b)) => Some(([s[0]] + a, b))
  }

  /** `version_etrangere`. */
  function VersionEtrangere(propre: string): Option<string> {
    if !("bifrost" <= propre) then None
    else match CouperAuPoint(propre[7..]) case None => None case Some((a, _)) => Some("bifrost" + a)
  }

  /** The result of a read, and every decryption it asked for. */
  datatype Lecture = Lecture(res: Result<Recu>, dechiffres: seq<(Octets, string)>)

  /** The end of `lire`: a clear link, its prefix already checked. */
  function LireCorps(corps: string, o: Outils): Result<Recu> {
    match CouperAuPoint(corps)
    case None => Err("lien incomplet")
    case Some((p, s)) =>
      match DecoderMorceau(p)
      case Err(e) => Err(e)
      case Ok(profil) =>
        match DecoderMorceau(s)
        case Err(e) => Err(e)
        case Ok(signature) => if o.estTexte(signature) then Ok(Recu(profil, signature)) else Err("la signature de ce lien n'est pas du texte")
  }

  /** `lire`: the clear of an encrypted link is read without a phrase. */
  function Lire(lien: string, phrase: Option<string>, o: Outils): Lecture
    decreases phrase.Some?
  {
    var propre := SansBlancs(lien);
    if PREFIXE_CHIFFRE <= propre then
      if phrase.None? then Lecture(Err("ce lien est chiffre: il faut la phrase de passe"), [])
      else
        match DecoderMorceau(propre[|PREFIXE_CHIFFRE|..])
        case Err(e) => Lecture(Err(e), [])
        case Ok(chiffre) =>
          match o.dechiffrer(chiffre, phrase.value)
          case None => Lecture(Err("ce lien ne s'ouvre pas avec cette phrase de passe"), [(chiffre, phrase.value)])
          case Some(nu) =>
            var l := Lire(nu, None, o);
            Lecture(l.res, [(chiffre, phrase.value)] + l.dechiffres)
    else if PREFIXE <= propre then Lecture(LireCorps(propre[|PREFIXE|..], o), [])
    else if VersionEtrangere(propre).Some? then Lecture(Err("autre version"), [])
    else Lecture(Err("ce n'est pas un lien Bifrost"), [])
  }

  /** `est_chiffre`. */
  predicate EstChiffre(lien: string) { PREFIXE_CHIFFRE <= SansTete(lien) }

  // ---------------------------------------------------------------------
  // Round trips.
  // ---------------------------------------------------------------------

  /** A text the alphabet of links is made of: no blank to lose. */
  predicate Net(s: string) { forall i :: 0 <= i < |s| ==> !Blanc(s[i]) }

  lemma {:induction false} NetInchange(s: string)
    requires Net(s)
    ensures SansBlancs(s) == s
  {
    if s != [] {
      NetInchange(s[1..]);
    }
  }

  lemma EncodeNet(b: Octets)
    ensures Net(Encoder(b)) && '.' !in Encoder(b)
  {
  }

  lemma {:induction false} CoupeAuPremier(a: string, b: string)
    requires '.' !in a
    ensures CouperAuPoint(a + "." + b) == Some((a, b))
  {
    var s := a + "." + b;
    if a == [] {
      assert s[1..] == b;
    } else {
      assert s[1..] == a[1..] + "." + b;
      assert a == [a[0]] + a[1..];
      CoupeAuPremier(a[1..], b);
    }
  }

  /** Both encodings fit what a person may paste. */
  predicate SousPlafond(profil: Octets, signature: Octets) {
    |Encoder(profil)| <= PLAFOND && |Encoder(signature)| <= PLAFOND
  }

  lemma CorpsRelu(profil: Octets, signature: Octets, o: Outils)
    requires o.estTexte(signature)
    ensures SousPlafond(profil, signature) ==> LireCorps(Encoder(profil) + "." + Encoder(signature), o) == Ok(Recu(profil, signature))
    ensures !SousPlafond(profil, signature) ==> LireCorps(Encoder(profil) + "." + Encoder(signature), o).Err?
  {
    EncodeNet(profil);
    CoupeAuPremier(Encoder(profil), Encoder(signature));
    DecoderEncoder(profil);
    DecoderEncoder(signature);
  }

  lemma PrefixesDistincts(s: string)
    ensures !(PREFIXE_CHIFFRE <= PREFIXE + s)
  {
    assert PREFIXE_CHIFFRE[8] == 'c' && (PREFIXE + s)[8] == '.';
  }

  /** Reading a written link, blanks inserted anywhere and any phrase given, gives
      the profile and the signature back exactly, without a decryption, when both
      fit; it is refused otherwise. */
  lemma LireEcrire(profil: Octets, signature: Octets, lien: string, phrase: Option<string>, o: Outils)
    requires o.estTexte(signature)
    requires SansBlancs(lien) == Ecrire(profil, signature)
    ensures SousPlafond(profil, signature) ==> Lire(lien, phrase, o) == Lecture(Ok(Recu(profil, signature)), [])
    ensures !SousPlafond(profil, signature) ==> Lire(lien, phrase, o).res.Err?
  {
    hide SansBlancs, Encoder, LireCorps;
    var corps := Encoder(profil) + "." + Encoder(signature);
    assert Ecrire(profil, signature) == PREFIXE + corps;
    assert (PREFIXE + corps)[|PREFIXE|..] == corps;
    PrefixesDistincts(corps);
    CorpsRelu(profil, signature, o);
  }

  lemma NetSuite(a: string, b: string)
    requires Net(a) && Net(b)
    ensures Net(a + b)
  {
  }

  /** The written link itself is one of them. */
  lemma EcrireNet(profil: Octets, signature: Octets)
    ensures SansBlancs(Ecrire(profil, signature)) == Ecrire(profil, signature)
  {
    hide SansBlancs, Encoder;
    EncodeNet(profil);
    EncodeNet(signature);
    assert Net(PREFIXE) && Net(".");
    NetSuite(PREFIXE, Encoder(profil));
    NetSuite(PREFIXE + Encoder(profil), ".");
    NetSuite(PREFIXE + Encoder(profil) + ".", Encoder(signature));
    NetInchange(Ecrire(profil, signature));
  }

  /** `ecrire_chiffre`, over the bytes the cipher gave. */
  function EcrireChiffre(chiffre: Octets): string { PREFIXE_CHIFFRE + Encoder(chiffre) }

  /** Reading an encrypted link with its phrase, when decryption inverts the cipher:
      the profile and the signature come back, after one decryption. */
  lemma LireEcrireChiffre(profil: Octets, signature: Octets, chiffre: Octets, phrase: string, lien: string, o: Outils)
    requires o.estTexte(signature) && o.dechiffrer(chiffre, phrase) == Some(Ecrire(profil, signature))
    requires SansBlancs(lien) == EcrireChiffre(chiffre)
    ensures |Encoder(chiffre)| <= PLAFOND && SousPlafond(profil, signature) ==>
              Lire(lien, Some(phrase), o) == Lecture(Ok(Recu(profil, signature)), [(chiffre, phrase)])
    ensures !(|Encoder(chiffre)| <= PLAFOND && SousPlafond(profil, signature)) ==> Lire(lien, Some(phrase), o).res.Err?
  {
    assert EcrireChiffre(chiffre)[|PREFIXE_CHIFFRE|..] == Encoder(chiffre);
    DecoderEncoder(chiffre);
    var nu := Ecrire(profil, signature);
    EcrireNet(profil, signature);
    LireEcrire(profil, signature, nu, None, o);
    assert [(chiffre, phrase)] + [] == [(chiffre, phrase)];
  }

  // ---------------------------------------------------------------------
  // Encrypted links.
  // ---------------------------------------------------------------------

  /** One decryption at most, and only of a link given with a phrase. */
  lemma UnDechiffrement(lien: string, phrase: Option<string>, o: Outils)
    ensures |Lire(lien, phrase, o).dechiffres| <= 1
    ensures |Lire(lien, phrase, o).dechiffres| == 1 ==> phrase.Some? && PREFIXE_CHIFFRE <= SansBlancs(lien)
    ensures phrase.None? ==> Lire(lien, phrase, o).dechiffres == []
  {
  }

  /** A link inside an encrypted link is never opened. */
  lemma PasDePoupee(lien: string, phrase: string, o: Outils, chiffre: Octets)
    requires PREFIXE_CHIFFRE <= SansBlancs(lien) && DecoderMorceau(SansBlancs(lien)[|PREFIXE_CHIFFRE|..]) == Ok(chiffre)
    requires o.dechiffrer(chiffre, phrase).Some? && PREFIXE_CHIFFRE <= SansBlancs(o.dechiffrer(chiffre, phrase).value)
    ensures Lire(lien, Some(phrase), o).res.Err? && |Lire(lien, Some(phrase), o).dechiffres| == 1
  {
  }

  /** A link whose prefix, blanks removed, says so needs a phrase. */
  lemma PhraseNecessaire(lien: string, o: Outils)
    requires PREFIXE_CHIFFRE <= SansBlancs(lien)
    ensures Lire(lien, None, o).res.Err? && Lire(lien, None, o).dechiffres == []
  {
  }

  lemma {:induction false} SansTeteMemeReste(s: string)
    ensures SansBlancs(SansTete(s)) == SansBlancs(s)
    ensures SansTete(s) != [] ==> !Blanc(SansTete(s)[0])
  {
    if s != [] && Blanc(s[0]) {
      SansTeteMemeReste(s[1..]);
    }
  }

  lemma {:induction false} SansBlancsPrefixe(p: string, s: string)
    requires Net(p)
    ensures SansBlancs(p + s) == p + SansBlancs(s)
  {
    if p == [] {
      assert p + s == s;
    } else {
      assert (p + s)[1..] == p[1..] + s;
      SansBlancsPrefixe(p[1..], s);
    }
  }

  lemma PrefixeNet()
    ensures Net(PREFIXE_CHIFFRE)
  {
  }

  /** Recognising an encrypted link misses one family: a blank inside the prefix. */
  lemma EstChiffreExact(lien: string)
    ensures EstChiffre(lien) <==>
            PREFIXE_CHIFFRE <= SansBlancs(lien) && |SansTete(lien)| >= 10 && Net(SansTete(lien)[..10])
  {
    var t := SansTete(lien);
    SansTeteMemeReste(lien);
    PrefixeNet();
    if EstChiffre(lien) {
      assert t == PREFIXE_CHIFFRE + t[10..] && t[..10] == PREFIXE_CHIFFRE;
      SansBlancsPrefixe(PREFIXE_CHIFFRE, t[10..]);
    }
    if |t| >= 10 && Net(t[..10]) && PREFIXE_CHIFFRE <= SansBlancs(lien) {
      assert t == t[..10] + t[10..];
      SansBlancsPrefixe(t[..10], t[10..]);
      assert t[..10] == SansBlancs(lien)[..10] == PREFIXE_CHIFFRE;
    }
  }

  /** What recognising a link is for: asked without a phrase, it would be refused,
      and nothing would be decrypted. */
  lemma ReconnuDemandeLaPhrase(lien: string, o: Outils)
    requires EstChiffre(lien)
    ensures Lire(lien, None, o).res.Err? && Lire(lien, None, o).dechiffres == []
  {
    hide SansBlancs, SansTete, Lire;
    EstChiffreExact(lien);
    PhraseNecessaire(lien, o);
  }

  lemma EspaceDansLePrefixe(s: string)
    ensures SansBlancs("bif" + (" " + s)) == "bif" + SansBlancs(s)
    ensures !EstChiffre("bif" + (" " + s))
  {
    SansBlancsPrefixe("bif", " " + s);
    assert (" " + s)[1..] == s;
    var lien := "bif" + (" " + s);
    assert lien[0] == 'b' && !Blanc('b');
    assert SansTete(lien) == lien;
    assert lien[3] == ' ' && PREFIXE_CHIFFRE[3] == 'r';
  }

  /** A link of that family: it needs a phrase, and is not recognised as encrypted. */
  lemma ChiffreNonReconnu(chiffre: Octets, o: Outils) returns (lien: string)
    ensures !EstChiffre(lien) && SansBlancs(lien) == EcrireChiffre(chiffre)
    ensures Lire(lien, None, o).res.Err?
  {
    hide SansBlancs, Encoder, EstChiffre, Lire, SansTete;
    var suite := "rost1c." + Encoder(chiffre);
    lien := "bif" + (" " + suite);
    EspaceDansLePrefixe(suite);
    SansBlancsPrefixe("rost1c.", Encoder(chiffre));
    EncodeNet(chiffre);
    NetInchange(Encoder(chiffre));
    assert "bif" + "rost1c." == PREFIXE_CHIFFRE;
    assert "bif" + suite == PREFIXE_CHIFFRE + Encoder(chiffre);
    PhraseNecessaire(lien, o);
  }

  /** The version a refusal names: what stands between "bifrost" and the first dot. */
  lemma VersionNommee(propre: string, v: string)
    ensures VersionEtrangere(propre) == Some(v) <==> "bifrost" <= v && v + "." <= propre && '.' !in v[7..]
  {
    if "bifrost" <= v && v + "." <= propre && '.' !in v[7..] {
      var reste := propre[|v| + 1..];
      assert propre == v + "." + reste;
      assert propre[7..] == v[7..] + "." + reste;
      CoupeAuPremier(v[7..], reste);
      assert v == "bifrost" + v[7..];
    }
    if VersionEtrangere(propre) == Some(v) {
      var c := CouperAuPoint(propre[7..]).value;
      assert propre == "bifrost" + propre[7..];
      assert v[7..] == c.0;
      assert propre == (v + ".") + c.1;
    }
  }

  // ---------------------------------------------------------------------
  // What reads, exactly.
  // ---------------------------------------------------------------------

  /** The blanks, by their code: tab, line feed and the controls up to carriage return,
      space, and the other separators of Unicode. */
  lemma BlancEst(c: char)
    ensures Blanc(c) <==> var n := c as int;
      9 <= n <= 13 || n in {32, 133, 160, 5760, 8232, 8233, 8239, 8287, 12288} || 8192 <= n <= 8202
  {
  }

  lemma BlancsUsuels()
    ensures Blanc(' ') && Blanc('\t') && Blanc('\n') && Blanc('\r') && !Blanc('.') && !Blanc('b') && !Blanc('-') && !Blanc('_')
    ensures PREFIXE == "bifrost1." && PREFIXE_CHIFFRE == "bifrost1c."
  {
  }

  /** A piece reads exactly when it is at most 65536 characters, the encoding of bytes. */
  lemma MorceauExact(m: string, b: Octets)
    ensures DecoderMorceau(m) == Ok(b) <==> |m| <= 65536 && m == Encoder(b)
  {
    EncoderDecoder(m, b);
  }

  lemma {:induction false} CoupeUnique(s: string, a: string, b: string)
    ensures CouperAuPoint(s) == Some((a, b)) <==> '.' !in a && s == a + "." + b
  {
    if '.' !in a && s == a + "." + b {
      CoupeAuPremier(a, b);
    }
  }

  lemma CorpsExact(corps: string, o: Outils, r: Recu)
    ensures LireCorps(corps, o) == Ok(r) <==>
      && corps == Encoder(r.profil) + "." + Encoder(r.signature) && |Encoder(r.profil)| <= 65536 && |Encoder(r.signature)| <= 65536
      && o.estTexte(r.signature)
  {
    EncodeNet(r.profil);
    CoupeUnique(corps, Encoder(r.profil), Encoder(r.signature));
    var c := CouperAuPoint(corps);
    if c.Some? {
      MorceauExact(c.value.0, r.profil);
      MorceauExact(c.value.1, r.signature);
    }
    hide Encoder, DecoderMorceau, CouperAuPoint;
    if LireCorps(corps, o) == Ok(r) {
      assert DecoderMorceau(c.value.0) == Ok(r.profil) && DecoderMorceau(c.value.1) == Ok(r.signature);
    }
    if corps == Encoder(r.profil) + "." + Encoder(r.signature) {
      assert c == Some((Encoder(r.profil), Encoder(r.signature)));
    }
  }

  /** The clear link of a profile and a signature, both within the cap. */
  ghost predicate EstLeLien(propre: string, o: Outils, r: Recu) {
    && propre == "bifrost1." + Encoder(r.profil) + "." + Encoder(r.signature)
    && |Encoder(r.profil)| <= 65536 && |Encoder(r.signature)| <= 65536 && o.estTexte(r.signature)
  }

  lemma LireNuExact(lien: string, o: Outils, r: Recu)
    ensures Lire(lien, None, o).res == Ok(r) <==> EstLeLien(SansBlancs(lien), o, r)
  {
    var propre := SansBlancs(lien);
    hide SansBlancs, LireCorps, Encoder;
    if EstLeLien(propre, o, r) {
      assert PREFIXE <= propre;
    }
    if PREFIXE <= propre {
      var corps := propre[|PREFIXE|..];
      assert propre == PREFIXE + corps;
      PrefixesDistincts(corps);
      CorpsExact(corps, o, r);
      assert propre == "bifrost1." + Encoder(r.profil) + "." + Encoder(r.signature) <==> corps == Encoder(r.profil) + "." + Encoder(r.signature) by {
        assert "bifrost1." + Encoder(r.profil) + "." + Encoder(r.signature) == PREFIXE + (Encoder(r.profil) + "." + Encoder(r.signature));
      }
    }
  }

  /** What is read of any text: the profile and the signature of the clear link it is,
      blanks removed, or, with a phrase, of the one its encryption opens to. */
  lemma LireExact(lien: string, phrase: Option<string>, o: Outils, r: Recu)
    ensures Lire(lien, phrase, o).res == Ok(r) <==>
      || EstLeLien(SansBlancs(lien), o, r)
      || (phrase.Some? && exists b: Octets, nu ::
            SansBlancs(lien) == "bifrost1c." + Encoder(b) && |Encoder(b)| <= 65536 && o.dechiffrer(b, phrase.value) == Some(nu)
            && EstLeLien(SansBlancs(nu), o, r))
  {
    var propre := SansBlancs(lien);
    LireNuExact(lien, o, r);
    hide SansBlancs, LireCorps, Encoder, EstLeLien;
    if PREFIXE_CHIFFRE <= propre {
      var corps := propre[|PREFIXE_CHIFFRE|..];
      assert propre == PREFIXE_CHIFFRE + corps;
      forall b: Octets ensures DecoderMorceau(corps) == Ok(b) <==> |corps| <= 65536 && corps == Encoder(b) {
        MorceauExact(corps, b);
      }
      forall b: Octets ensures propre == "bifrost1c." + Encoder(b) <==> corps == Encoder(b) {
        assert ("bifrost1c." + Encoder(b))[10..] == Encoder(b);
      }
      hide DecoderMorceau;
      if phrase.Some? && DecoderMorceau(corps).Ok? {
        var b := DecoderMorceau(corps).value;
        if o.dechiffrer(b, phrase.value).Some? {
          LireNuExact(o.dechiffrer(b, phrase.value).value, o, r);
        }
      }
    } else {
      forall b: Octets ensures propre != "bifrost1c." + Encoder(b) {
        assert PREFIXE_CHIFFRE <= "bifrost1c." + Encoder(b);
      }
    }
  }
}
