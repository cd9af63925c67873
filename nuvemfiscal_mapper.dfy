/**
 * The NuvemFiscal status vocabulary: `mapNuvemFiscalStatusToDomain`, the same
 * ordered substring classification as the PlugNotas mapper without its
 * leading 'conclu' rule.
 */
module NuvemFiscalMapper {
  import opened Wrappers
  import opened Text
  import opened NfseStatus
  import opened KeywordRules
  import PlugNotasMapper

  function MapStatus(status: Option<string>): Status {
    var s := ToLower(status.GetOr(""));
    if Contains(s, "autoriz") then AUTHORIZED
    else if Contains(s, "rejeit") || Contains(s, "negad") then REJECTED
    else if Contains(s, "cancel") then CANCELED
    else if Contains(s, "erro") || Contains(s, "falh") then ERROR
    else PENDING
  }

  /** The rule table: the PlugNotas table without its first ('conclu') rule. */
  function Rules(): (rules: seq<Rule>)
    ensures rules == PlugNotasMapper.Rules()[1..]
  {
    [Rule(["autoriz"], AUTHORIZED),
     Rule(["rejeit", "negad"], REJECTED),
     Rule(["cancel"], CANCELED),
     Rule(["erro", "falh"], ERROR)]
  }

  /** MapStatus is the first-matching-rule classification over its rule table. */
  lemma MapStatusFollowsRules(status: Option<string>)
    ensures MapStatus(status) == Classify(Rules(), ToLower(status.GetOr("")))
  {
    var s := ToLower(status.GetOr(""));
    var rs := Rules();
    assert Fires(rs[0], s) <==> Contains(s, "autoriz") by {
      assert rs[0].keywords[0] == "autoriz";
    }
    assert Fires(rs[1], s) <==> Contains(s, "rejeit") || Contains(s, "negad") by {
      assert rs[1].keywords[0] == "rejeit" && rs[1].keywords[1] == "negad";
    }
    assert Fires(rs[2], s) <==> Contains(s, "cancel") by {
      assert rs[2].keywords[0] == "cancel";
    }
    assert Fires(rs[3], s) <==> Contains(s, "erro") || Contains(s, "falh") by {
      assert rs[3].keywords[0] == "erro" && rs[3].keywords[1] == "falh";
    }
    if Fires(rs[0], s) {
      ClassifyFirstMatch(rs, s, 0);
    } else if Fires(rs[1], s) {
      ClassifyFirstMatch(rs, s, 1);
    } else if Fires(rs[2], s) {
      ClassifyFirstMatch(rs, s, 2);
    } else if Fires(rs[3], s) {
      ClassifyFirstMatch(rs, s, 3);
    } else {
      ClassifyDefault(rs, s);
    }
  }

  /** The text is compared case-insensitively, and an absent status reads as '' and gives PENDING. */
  lemma CaseInsensitive(s: string)
    ensures MapStatus(Some(s)) == MapStatus(Some(ToLower(s)))
    ensures MapStatus(None) == MapStatus(Some("")) == PENDING
  {
    ToLowerIdempotent(s);
  }

  /**
   * 'autoriz' gives AUTHORIZED whatever else the text contains; below it REJECTED
   * ('rejeit'/'negad') beats CANCELED ('cancel'), which beats ERROR ('erro'/'falh'), and a text
   * with none of these keywords is PENDING. PROCESSING is never produced.
   */
  lemma Priorities(status: Option<string>)
    ensures var s := ToLower(status.GetOr(""));
      var authorizing := Contains(s, "autoriz");
      var rejecting := Contains(s, "rejeit") || Contains(s, "negad");
      var canceling := Contains(s, "cancel");
      var failing := Contains(s, "erro") || Contains(s, "falh");
      && (MapStatus(status) == AUTHORIZED <==> authorizing)
      && (MapStatus(status) == REJECTED <==> !authorizing && rejecting)
      && (MapStatus(status) == CANCELED <==> !authorizing && !rejecting && canceling)
      && (MapStatus(status) == ERROR <==> !authorizing && !rejecting && !canceling && failing)
      && (MapStatus(status) == PENDING <==> !authorizing && !rejecting && !canceling && !failing)
      && MapStatus(status) != PROCESSING
  {
  }

  /** The two providers' mappers agree on every status whose lower-cased text lacks 'conclu'. */
  lemma AgreesWithPlugNotas(status: Option<string>)
    requires !Contains(ToLower(status.GetOr("")), "conclu")
    ensures MapStatus(status) == PlugNotasMapper.MapStatus(status)
  {
    var s := ToLower(status.GetOr(""));
    var p := PlugNotasMapper.Rules();
    MapStatusFollowsRules(status);
    PlugNotasMapper.MapStatusFollowsRules(status);
    assert !Fires(p[0], s) by {
      assert p[0].keywords == ["conclu"];
    }
    assert p == [p[0]] + Rules();
    DropSilentRule(p[0], Rules(), s);
  }

  /**
   * A text with 'conclu' and none of this mapper's keywords is AUTHORIZED for PlugNotas and
   * PENDING here; 'CONCLUIDO' is such a text.
   */
  lemma DivergesOnConclu(status: Option<string>)
    requires var s := ToLower(status.GetOr(""));
      Contains(s, "conclu") && !Contains(s, "autoriz") && !Contains(s, "rejeit") && !Contains(s, "negad")
      && !Contains(s, "cancel") && !Contains(s, "erro") && !Contains(s, "falh")
    ensures PlugNotasMapper.MapStatus(status) == AUTHORIZED
    ensures MapStatus(status) == PENDING
  {
  }

  lemma ConcluidoDiverges()
    ensures PlugNotasMapper.MapStatus(Some("CONCLUIDO")) == AUTHORIZED
    ensures MapStatus(Some("CONCLUIDO")) == PENDING
  {
    assert ToLower("CONCLUIDO") == "concluido";
    ConcluidoKeywords();
    DivergesOnConclu(Some("CONCLUIDO"));
  }

  /** 'concluido' carries 'conclu' and none of the other keywords. */
  lemma ConcluidoKeywords()
    ensures var s := "concluido";
      Contains(s, "conclu") && !Contains(s, "autoriz") && !Contains(s, "rejeit") && !Contains(s, "negad")
      && !Contains(s, "cancel") && !Contains(s, "erro") && !Contains(s, "falh")
  {
    assert StartsWith("concluido", "conclu");
    ConcluidoLacks("autoriz", 'a');
    ConcluidoLacks("rejeit", 'r');
    ConcluidoLacks("negad", 'g');
    ConcluidoLacks("cancel", 'a');
    ConcluidoLacks("erro", 'e');
    ConcluidoLacks("falh", 'f');
  }

  lemma ConcluidoLacks(t: string, c: char)
    requires c in t && c != 'c' && c != 'o' && c != 'n' && c != 'l' && c != 'u' && c != 'i' && c != 'd'
    ensures !Contains("concluido", t)
  {
    LacksChar("concluido", t, c);
  }
}
