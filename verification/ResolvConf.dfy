/**
 `/etc/resolv.conf`: the file the product writes (crates/bifrost-core/src/plan_dns.rs:62-74)
 and the servers glibc reads in such a file (crates/bifrost-cli/src/preuve_dns.rs:291-324).
 Bytes are characters here.
 */
module ResolvConf {
  import opened Commun

  function Lignes(t: string): (r: seq<string>)
    ensures |r| > 0
  {
    if t == [] then [[]]
    else
      var r := Lignes(t[1..]);
      if t[0] == '\n' then [[]] + r else [[t[0]] + r[0]] + r[1..]
  }

  predicate Blanc(c: char) { c == ' ' || c == '\t' }

  function SansBlancs(s: string): string { if s != [] && Blanc(s[0]) then SansBlancs(s[1..]) else s }

  /** Up to the next blank. */
  function Jeton(s: string): string { if s == [] || Blanc(s[0]) then [] else [s[0]] + Jeton(s[1..]) }

  const CLE := "nameserver"

  /** One line: the keyword in column 0, a blank, then the address. */
  function ServeurDeLigne(ligne: string): Option<string> {
    if CLE <= ligne && |ligne| > |CLE| && Blanc(ligne[|CLE|]) then Some(Jeton(SansBlancs(ligne[|CLE|..]))) else None
  }

  function DesLignes(lignes: seq<string>): seq<string> {
    if lignes == [] then []
    else (match ServeurDeLigne(lignes[0]) case Some(s) => [s] case None => []) + DesLignes(lignes[1..])
  }

  /** `serveurs_resolv_conf`. */
  function ServeursResolvConf(t: string): seq<string> { DesLignes(Lignes(t)) }

  /** `vers_le_stub`: glibc, reading this file, asks the stub and nothing else. */
  predicate VersLeStub(contenu: Option<string>) {
    contenu.Some? &&
    var s := ServeursResolvConf(contenu.value);
    s != [] && forall i :: 0 <= i < |s| ==> s[i] == "127.0.0.53"
  }

  // ---------------------------------------------------------------------
  // What the product writes is what glibc reads.
  // ---------------------------------------------------------------------

  const MARQUEUR := "genere par bifrost"
  const TETE := "# " + MARQUEUR + ", restaure a la deconnexion"
  const OPTIONS := "options edns0 trust-ad"

  function LignesServeurs(adresses: seq<string>): string {
    if adresses == [] then [] else CLE + " " + adresses[0] + "\n" + LignesServeurs(adresses[1..])
  }

  /** `contenu_resolv_conf`, over the written form of the addresses. */
  function ContenuResolvConf(adresses: seq<string>): string {
    TETE + "\n" + LignesServeurs(adresses) + OPTIONS + "\n"
  }

  predicate UneLigne(s: string) { forall i :: 0 <= i < |s| ==> s[i] != '\n' }

  /** The written form of an address: one word. */
  predicate Mot(s: string) { s != [] && UneLigne(s) && forall i :: 0 <= i < |s| ==> !Blanc(s[i]) }

  lemma {:induction false} LignesTete(l: string, t: string)
    requires UneLigne(l)
    ensures Lignes(l + "\n" + t) == [l] + Lignes(t)
  {
    if l == [] {
      assert (l + "\n" + t)[1..] == t;
    } else {
      assert (l + "\n" + t)[1..] == l[1..] + "\n" + t;
      LignesTete(l[1..], t);
      assert ([l[1..]] + Lignes(t))[1..] == Lignes(t);
      assert [l[0]] + l[1..] == l;
      assert (l + "\n" + t)[0] == l[0] != '\n';
    }
  }

  lemma {:induction false} JetonMot(s: string)
    requires forall i :: 0 <= i < |s| ==> !Blanc(s[i])
    ensures Jeton(s) == s
  {
    if s != [] {
      JetonMot(s[1..]);
    }
  }

  lemma LigneServeur(a: string)
    requires Mot(a)
    ensures UneLigne(CLE + " " + a) && ServeurDeLigne(CLE + " " + a) == Some(a)
  {
    var l := CLE + " " + a;
    assert l[|CLE|..] == " " + a;
    assert (" " + a)[1..] == a;
    assert SansBlancs(" " + a) == SansBlancs(a) == a;
    JetonMot(a);
  }

  lemma TeteSansServeur()
    ensures UneLigne(TETE) && ServeurDeLigne(TETE) == None
  {
    assert TETE[0] == '#' != CLE[0];
  }

  lemma OptionsSansServeur()
    ensures UneLigne(OPTIONS) && ServeurDeLigne(OPTIONS) == None
  {
    assert OPTIONS[0] == 'o' != CLE[0];
  }

  lemma {:induction false} LignesServeursLues(adresses: seq<string>)
    requires forall i :: 0 <= i < |adresses| ==> Mot(adresses[i])
    ensures DesLignes(Lignes(LignesServeurs(adresses) + OPTIONS + "\n")) == adresses
  {
    OptionsSansServeur();
    if adresses == [] {
      LignesTete(OPTIONS, "");
      assert LignesServeurs(adresses) + OPTIONS + "\n" == OPTIONS + "\n" + "";
      var r := Lignes("");
      assert r == [""];
      assert ([OPTIONS] + r)[1..] == r;
      assert DesLignes(r) == [];
    } else {
      var l, suite := CLE + " " + adresses[0], LignesServeurs(adresses[1..]) + OPTIONS + "\n";
      LigneServeur(adresses[0]);
      LignesTete(l, suite);
      assert LignesServeurs(adresses) + OPTIONS + "\n" == l + "\n" + suite;
      assert ([l] + Lignes(suite))[1..] == Lignes(suite);
      LignesServeursLues(adresses[1..]);
    }
  }

  /** The servers glibc reads in the product's file are those of the plan, in its
      order. */
  lemma FichierRelu(adresses: seq<string>)
    requires forall i :: 0 <= i < |adresses| ==> Mot(adresses[i])
    ensures ServeursResolvConf(ContenuResolvConf(adresses)) == adresses
  {
    TeteSansServeur();
    var suite := LignesServeurs(adresses) + OPTIONS + "\n";
    LignesTete(TETE, suite);
    assert ContenuResolvConf(adresses) == TETE + "\n" + suite;
    assert ([TETE] + Lignes(suite))[1..] == Lignes(suite);
    LignesServeursLues(adresses);
  }

  // ---------------------------------------------------------------------
  // What glibc reads, in any file.
  // ---------------------------------------------------------------------

  /** Spaces and tabs alone. */
  ghost predicate Blancs(s: string) { forall k :: 0 <= k < |s| ==> s[k] as int == 32 || s[k] as int == 9 }

  ghost predicate UnMot(s: string) { forall k :: 0 <= k < |s| ==> s[k] as int != 32 && s[k] as int != 9 }

  lemma {:induction false} SansBlancsCoupe(s: string, b: string, r: string)
    ensures s == b + r && Blancs(b) && (r == "" || UnMot(r[..1])) ==> SansBlancs(s) == r
  {
    if b == "" {
      assert s == b + r ==> s == r;
    } else if s == b + r {
      assert s[1..] == b[1..] + r;
      SansBlancsCoupe(s[1..], b[1..], r);
    }
  }

  lemma {:induction false} SansBlancsDebut(s: string) returns (b: string)
    ensures s == b + SansBlancs(s) && Blancs(b) && (SansBlancs(s) == "" || UnMot(SansBlancs(s)[..1]))
  {
    if s != "" && Blanc(s[0]) {
      var c := SansBlancsDebut(s[1..]);
      b := [s[0]] + c;
    } else {
      b := "";
    }
  }

  lemma {:induction false} JetonCoupe(s: string, m: string, r: string)
    ensures s == m + r && UnMot(m) && (r == "" || Blancs(r[..1])) ==> Jeton(s) == m
  {
    if m == "" {
      assert s == m + r ==> s == r;
    } else if s == m + r {
      assert s[1..] == m[1..] + r;
      JetonCoupe(s[1..], m[1..], r);
    }
  }

  lemma {:induction false} JetonDebut(s: string) returns (r: string)
    ensures s == Jeton(s) + r && UnMot(Jeton(s)) && (r == "" || Blancs(r[..1]))
  {
    if s == "" || Blanc(s[0]) {
      r := s;
    } else {
      r := JetonDebut(s[1..]);
      assert s == [s[0]] + s[1..];
    }
  }

  /** The keyword, at least one blank, the longest word, then the end or a blank. */
  ghost predicate Ecrite(ligne: string, b: string, m: string, r: string) {
    && ligne == "nameserver" + b + m + r && b != "" && Blancs(b) && UnMot(m)
    && (r == "" || (m != "" && Blancs(r[..1])))
  }

  lemma ServeurExact(ligne: string, m: string)
    ensures ServeurDeLigne(ligne) == Some(m) <==> exists b, r :: Ecrite(ligne, b, m, r)
  {
    if ServeurDeLigne(ligne) == Some(m) {
      var reste := ligne[|CLE|..];
      var b := SansBlancsDebut(reste);
      var r := JetonDebut(SansBlancs(reste));
      assert ligne == CLE + reste;
      assert reste == b + m + r;
      assert Ecrite(ligne, b, m, r);
    }
    if b, r :| Ecrite(ligne, b, m, r) {
      assert ligne == CLE + (b + m + r);
      assert ligne[|CLE|..] == b + (m + r) && ligne[|CLE|] == b[0];
      assert m != "" ==> (m + r)[..1] == m[..1];
      SansBlancsCoupe(b + (m + r), b, m + r);
      JetonCoupe(m + r, m, r);
    }
  }

  lemma DesLignesSuite(a: seq<string>, b: seq<string>)
    requires |a| == 1
    ensures DesLignes(a + b) == (match ServeurDeLigne(a[0]) case Some(m) => [m] case None => []) + DesLignes(b)
  {
    assert (a + b)[1..] == b;
  }

  /** Line by line: each gives its server, if it names one, and the rest follow. */
  lemma LigneParLigne(ligne: string, suite: string)
    requires UneLigne(ligne)
    ensures ServeursResolvConf(ligne + "\n" + suite)
            == (match ServeurDeLigne(ligne) case Some(m) => [m] case None => []) + ServeursResolvConf(suite)
    ensures ServeursResolvConf(ligne) == match ServeurDeLigne(ligne) case Some(m) => [m] case None => []
  {
    hide ServeurDeLigne, Lignes;
    LignesTete(ligne, suite);
    DesLignesSuite([ligne], Lignes(suite));
    UneSeuleLigne(ligne);
    DesLignesSuite([ligne], []);
    assert [ligne] + [] == [ligne];
  }

  lemma {:induction false} UneSeuleLigne(l: string)
    requires UneLigne(l)
    ensures Lignes(l) == [l]
  {
    if l != "" {
      UneSeuleLigne(l[1..]);
      assert [l[0]] + l[1..] == l && [l[1..]][1..] == [];
    }
  }

  /** The file the product writes: its mark, a line for each server, the options. */
  lemma ContenuEcrit(adresses: seq<string>)
    ensures ContenuResolvConf(adresses) == "# genere par bifrost" + ", restaure a la deconnexion" + "\n" + LignesServeurs(adresses) + "options edns0 trust-ad" + "\n"
  {
    hide LignesServeurs;
    assert "# " + MARQUEUR == "# genere par bifrost";
  }

  lemma LignesEcrites(a: string, suite: seq<string>)
    ensures LignesServeurs([]) == ""
    ensures LignesServeurs([a] + suite) == "nameserver " + a + "\n" + LignesServeurs(suite)
  {
    assert ([a] + suite)[1..] == suite;
    assert CLE + " " == "nameserver ";
  }
}
