/**
 * The fixed per-sport catalogue of canned replies (`sport_responses` in
 * app/main.py). Each reply is written as the list of its words; the reply
 * text is those words joined by single spaces, which is exactly how every
 * catalogue sentence is spelled (no leading, trailing or doubled spaces).
 */
module Catalog {
  import opened Text

  /** The reply texts of one sport: each word list joined by single spaces. */
  function Replies(wordLists: seq<seq<string>>): seq<string> {
    seq(|wordLists|, k requires 0 <= k < |wordLists| => JoinWords(wordLists[k]))
  }

  const Rugby0: seq<string> := ["Le", "rugby", "est", "un", "sport", "de", "combat", "collectif", "qui", "se", "joue", "à", "15", "contre", "15."]
  const Rugby1: seq<string> := ["Le", "XV", "de", "France", "a", "remporté", "le", "Tournoi", "des", "Six", "Nations", "en", "2022."]
  const Rugby2: seq<string> := ["La", "Coupe", "du", "Monde", "de", "Rugby", "se", "déroule", "tous", "les", "quatre", "ans."]
  const Rugby3: seq<string> := ["L'essai", "vaut", "5", "points,", "la", "transformation", "2", "points", "et", "le", "drop", "ou", "la", "pénalité", "3", "points."]

  /** The words of the "rugby" replies, in catalogue order. */
  const RugbyWords: seq<seq<string>> := [Rugby0, Rugby1, Rugby2, Rugby3]

  const Football0: seq<string> := ["Le", "football", "se", "joue", "à", "11", "contre", "11", "avec", "un", "ballon", "rond."]
  const Football1: seq<string> := ["La", "Coupe", "du", "Monde", "de", "football", "a", "lieu", "tous", "les", "quatre", "ans."]
  const Football2: seq<string> := ["Le", "Real", "Madrid", "est", "le", "club", "le", "plus", "titré", "en", "Ligue", "des", "Champions."]
  const Football3: seq<string> := ["Un", "match", "de", "football", "dure", "90", "minutes,", "réparties", "en", "deux", "mi-temps", "de", "45", "minutes."]

  /** The words of the "football" replies, in catalogue order. */
  const FootballWords: seq<seq<string>> := [Football0, Football1, Football2, Football3]

  const Tennis0: seq<string> := ["Le", "tennis", "se", "joue", "en", "simple", "(1", "contre", "1)", "ou", "en", "double", "(2", "contre", "2)."]
  const Tennis1: seq<string> := ["Les", "quatre", "tournois", "du", "Grand", "Chelem", "sont", "l'Open", "d'Australie,", "Roland-Garros,", "Wimbledon", "et", "l'US", "Open."]
  const Tennis2: seq<string> := ["Le", "service", "alterne", "tous", "les", "deux", "points,", "et", "les", "joueurs", "changent", "de", "côté", "tous", "les", "jeux", "impairs."]
  const Tennis3: seq<string> := ["Le", "tie-break", "se", "joue", "à", "6-6", "dans", "la", "plupart", "des", "sets."]

  /** The words of the "tennis" replies, in catalogue order. */
  const TennisWords: seq<seq<string>> := [Tennis0, Tennis1, Tennis2, Tennis3]

  const Volley0: seq<string> := ["Le", "volleyball", "se", "joue", "à", "6", "contre", "6", "sur", "un", "terrain", "séparé", "par", "un", "filet."]
  const Volley1: seq<string> := ["Chaque", "équipe", "peut", "toucher", "le", "ballon", "trois", "fois", "avant", "de", "le", "renvoyer."]
  const Volley2: seq<string> := ["Un", "match", "se", "joue", "en", "trois", "sets", "gagnants", "de", "25", "points", "(avec", "2", "points", "d'écart)."]
  const Volley3: seq<string> := ["La", "position", "des", "joueurs", "sur", "le", "terrain", "est", "réglementée", "et", "doit", "suivre", "un", "ordre", "précis."]

  /** The words of the "volley" replies, in catalogue order. */
  const VolleyWords: seq<seq<string>> := [Volley0, Volley1, Volley2, Volley3]

  const Cyclisme0: seq<string> := ["Le", "Tour", "de", "France", "est", "la", "plus", "célèbre", "course", "cycliste", "au", "monde."]
  const Cyclisme1: seq<string> := ["Le", "cyclisme", "sur", "route", "comprend", "différents", "types", "d'épreuves", ":", "contre-la-montre,", "courses", "en", "ligne,", "etc."]
  const Cyclisme2: seq<string> := ["Le", "maillot", "jaune", "est", "porté", "par", "le", "leader", "du", "classement", "général", "du", "Tour", "de", "France."]
  const Cyclisme3: seq<string> := ["Un", "vélo", "de", "course", "pèse", "environ", "7", "kg", "et", "doit", "respecter", "des", "normes", "précises", "fixées", "par", "l'UCI."]

  /** The words of the "cyclisme" replies, in catalogue order. */
  const CyclismeWords: seq<seq<string>> := [Cyclisme0, Cyclisme1, Cyclisme2, Cyclisme3]

  /** `sport_responses`: the supported sports, as lower-case keys, and their replies. */
  const SportResponses: map<string, seq<string>> := map[
    "rugby" := Replies(RugbyWords),
    "football" := Replies(FootballWords),
    "tennis" := Replies(TennisWords),
    "volley" := Replies(VolleyWords),
    "cyclisme" := Replies(CyclismeWords)
  ]

  /** One reply per word list, and `split()` finds in each reply exactly
      the words it was written with: the words the streaming responder
      sends for a reply are its listed words, in order. */
  lemma RepliesSplit(wordLists: seq<seq<string>>)
    ensures |Replies(wordLists)| == |wordLists|
    ensures forall k :: 0 <= k < |wordLists| && AllWords(wordLists[k]) ==> Split(Replies(wordLists)[k]) == wordLists[k]
  {
    forall k | 0 <= k < |wordLists| && AllWords(wordLists[k]) ensures Split(Replies(wordLists)[k]) == wordLists[k] {
      SplitJoin(wordLists[k]);
    }
  }

  /** Word lists made of words give normalized replies. */
  lemma RepliesNormalized(wordLists: seq<seq<string>>)
    requires forall k :: 0 <= k < |wordLists| ==> AllWords(wordLists[k])
    ensures forall k :: 0 <= k < |Replies(wordLists)| ==> Normalized(Replies(wordLists)[k])
  {
    forall k | 0 <= k < |wordLists| ensures Normalized(Replies(wordLists)[k]) {
      JoinNormalized(wordLists[k]);
    }
  }

  /** A reply index that is in range for every sport of `catalog`: what
      `random.choice` can return for any of its lists. */
  predicate ValidPick(catalog: map<string, seq<string>>, pick: nat) {
    forall sport :: sport in catalog ==> pick < |catalog[sport]|
  }

  /** What the handlers rely on in a catalogue: lower-case keys, and
      replies that `split()` and re-joining give back unchanged. */
  ghost predicate WellFormed(catalog: map<string, seq<string>>) {
    && (forall sport :: sport in catalog ==> Lower(sport) == sport)
    && (forall sport, i :: sport in catalog && 0 <= i < |catalog[sport]| ==> ReplyNormalized(catalog, sport, i))
  }

  /** Reply `i` of `sport` is normalized. */
  ghost predicate ReplyNormalized(catalog: map<string, seq<string>>, sport: string, i: nat)
    requires sport in catalog && i < |catalog[sport]|
  {
    Normalized(catalog[sport][i])
  }

  /** The catalogue has five sports, four replies each; so a valid pick is
      one of the four first positions, and it is valid whatever sport the
      request names. */
  lemma CatalogShape()
    ensures SportResponses.Keys == {"rugby", "football", "tennis", "volley", "cyclisme"}
    ensures forall sport :: sport in SportResponses ==> |SportResponses[sport]| == 4
    ensures forall pick: nat :: ValidPick(SportResponses, pick) <==> pick < 4
  {
  }

  /** Every key is already lower case, so any upper- or lower-case spelling
      of a supported sport is accepted after `lower()`. */
  lemma KeysAreLowerCase(sport: string)
    requires sport in SportResponses
    ensures Lower(sport) == sport
  {
    LowerKeepsLowercase(sport);
  }

  /** A list whose words are non-empty and contain no whitespace character
      is a list of words; checking characters by membership is what makes
      the catalogue's literal lists cheap to check. */
  lemma {:induction false} WordsByMembership(ws: seq<string>)
    requires forall k :: 0 <= k < |ws| ==> |ws[k]| > 0 && forall c :: c in ws[k] ==> !IsSpace(c)
    ensures AllWords(ws)
  {
    forall k, i | 0 <= k < |ws| && 0 <= i < |ws[k]| ensures !IsSpace(ws[k][i]) {
      assert ws[k][i] in ws[k];
    }
  }

  lemma RugbyWords0() ensures AllWords(Rugby0) { WordsByMembership(Rugby0); }
  lemma RugbyWords1() ensures AllWords(Rugby1) { WordsByMembership(Rugby1); }
  lemma RugbyWords2() ensures AllWords(Rugby2) { WordsByMembership(Rugby2); }
  lemma RugbyWords3() ensures AllWords(Rugby3) { WordsByMembership(Rugby3); }

  lemma FootballWords0() ensures AllWords(Football0) { WordsByMembership(Football0); }
  lemma FootballWords1() ensures AllWords(Football1) { WordsByMembership(Football1); }
  lemma FootballWords2() ensures AllWords(Football2) { WordsByMembership(Football2); }
  lemma FootballWords3() ensures AllWords(Football3) { WordsByMembership(Football3); }

  lemma TennisWords0() ensures AllWords(Tennis0) { WordsByMembership(Tennis0); }
  lemma TennisWords1() ensures AllWords(Tennis1) { WordsByMembership(Tennis1); }
  lemma TennisWords2() ensures AllWords(Tennis2) { WordsByMembership(Tennis2); }
  lemma TennisWords3() ensures AllWords(Tennis3) { WordsByMembership(Tennis3); }

  lemma VolleyWords0() ensures AllWords(Volley0) { WordsByMembership(Volley0); }
  lemma VolleyWords1() ensures AllWords(Volley1) { WordsByMembership(Volley1); }
  lemma VolleyWords2() ensures AllWords(Volley2) { WordsByMembership(Volley2); }
  lemma VolleyWords3() ensures AllWords(Volley3) { WordsByMembership(Volley3); }

  lemma CyclismeWords0() ensures AllWords(Cyclisme0) { WordsByMembership(Cyclisme0); }
  lemma CyclismeWords1() ensures AllWords(Cyclisme1) { WordsByMembership(Cyclisme1); }
  lemma CyclismeWords2() ensures AllWords(Cyclisme2) { WordsByMembership(Cyclisme2); }
  lemma CyclismeWords3() ensures AllWords(Cyclisme3) { WordsByMembership(Cyclisme3); }

  /** Every "rugby" reply is normalized. */
  lemma RugbyNormalized()
    ensures forall i :: 0 <= i < |Replies(RugbyWords)| ==> Normalized(Replies(RugbyWords)[i])
  {
    RugbyWords0();
    RugbyWords1();
    RugbyWords2();
    RugbyWords3();
    RepliesNormalized(RugbyWords);
  }

  /** Every "football" reply is normalized. */
  lemma FootballNormalized()
    ensures forall i :: 0 <= i < |Replies(FootballWords)| ==> Normalized(Replies(FootballWords)[i])
  {
    FootballWords0();
    FootballWords1();
    FootballWords2();
    FootballWords3();
    RepliesNormalized(FootballWords);
  }

  /** Every "tennis" reply is normalized. */
  lemma TennisNormalized()
    ensures forall i :: 0 <= i < |Replies(TennisWords)| ==> Normalized(Replies(TennisWords)[i])
  {
    TennisWords0();
    TennisWords1();
    TennisWords2();
    TennisWords3();
    RepliesNormalized(TennisWords);
  }

  /** Every "volley" reply is normalized. */
  lemma VolleyNormalized()
    ensures forall i :: 0 <= i < |Replies(VolleyWords)| ==> Normalized(Replies(VolleyWords)[i])
  {
    VolleyWords0();
    VolleyWords1();
    VolleyWords2();
    VolleyWords3();
    RepliesNormalized(VolleyWords);
  }

  /** Every "cyclisme" reply is normalized. */
  lemma CyclismeNormalized()
    ensures forall i :: 0 <= i < |Replies(CyclismeWords)| ==> Normalized(Replies(CyclismeWords)[i])
  {
    CyclismeWords0();
    CyclismeWords1();
    CyclismeWords2();
    CyclismeWords3();
    RepliesNormalized(CyclismeWords);
  }

  /** Every reply in the catalogue is normalized. */
  lemma CatalogNormalized()
    ensures forall sport, i :: sport in SportResponses && 0 <= i < |SportResponses[sport]| ==> Normalized(SportResponses[sport][i])
  {
    RugbyNormalized();
    FootballNormalized();
    TennisNormalized();
    VolleyNormalized();
    CyclismeNormalized();
  }

  /** The catalogue of the service is well formed. */
  lemma CatalogWellFormed()
    ensures WellFormed(SportResponses)
  {
    forall sport | sport in SportResponses ensures Lower(sport) == sport {
      KeysAreLowerCase(sport);
    }
    CatalogNormalized();
    forall sport, i | sport in SportResponses && 0 <= i < |SportResponses[sport]|
      ensures ReplyNormalized(SportResponses, sport, i)
    {
    }
  }
}
