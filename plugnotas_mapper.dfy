/**
 * The PlugNotas status vocabulary: `mapPlugNotasStatusToDomain` classifies a
 * provider status text by ordered substring tests on its lower-cased form,
 * and `extractPlugNotasStatus` finds that text in a provider response.
 */
module PlugNotasMapper {
  import opened Wrappers
  import opened Text
  import opened NfseStatus
  import opened KeywordRules
  import Json

  /** `(value ?? '').toLowerCase()`: an absent status reads as the empty text. */
  function NormalizeStatus(value: Option<string>): (r: string)
    ensures |r| == |value.GetOr("")|
    ensures value.None? ==> r == ""
  {
    ToLower(value.GetOr(""))
  }

  function MapStatus(status: Option<string>): Status {
    var s := NormalizeStatus(status);
    if Contains(s, "conclu") then AUTHORIZED
    else if Contains(s, "autoriz") then AUTHORIZED
    else if Contains(s, "rejeit") || Contains(s, "negad") then REJECTED
    else if Contains(s, "cancel") then CANCELED
    else if Contains(s, "erro") || Contains(s, "falh") then ERROR
    else PENDING
  }

  /** The mapper's rule table, highest priority first. */
  function Rules(): (rules: seq<Rule>)
    ensures |rules| == 5
  {
    [Rule(["conclu"], AUTHORIZED),
     Rule(["autoriz"], AUTHORIZED),
     Rule(["rejeit", "negad"], REJECTED),
     Rule(["cancel"], CANCELED),
     Rule(["erro", "falh"], ERROR)]
  }

  /** MapStatus is the first-matching-rule classification over the rule table. */
  lemma MapStatusFollowsRules(status: Option<string>)
    ensures MapStatus(status) == Classify(Rules(), NormalizeStatus(status))
  {
    var s := NormalizeStatus(status);
    var rs := Rules();
    assert Fires(rs[0], s) <==> Contains(s, "conclu") by {
      assert rs[0].keywords[0] == "conclu";
    }
    assert Fires(rs[1], s) <==> Contains(s, "autoriz") by {
      assert rs[1].keywords[0] == "autoriz";
    }
    assert Fires(rs[2], s) <==> Contains(s, "rejeit") || Contains(s, "negad") by {
      assert rs[2].keywords[0] == "rejeit" && rs[2].keywords[1] == "negad";
    }
    assert Fires(rs[3], s) <==> Contains(s, "cancel") by {
      assert rs[3].keywords[0] == "cancel";
    }
    assert Fires(rs[4], s) <==> Contains(s, "erro") || Contains(s, "falh") by {
      assert rs[4].keywords[0] == "erro" && rs[4].keywords[1] == "falh";
    }
    if Fires(rs[0], s) {
      ClassifyFirstMatch(rs, s, 0);
    } else if Fires(rs[1], s) {
      ClassifyFirstMatch(rs, s, 1);
    } else if Fires(rs[2], s) {
      ClassifyFirstMatch(rs, s, 2);
    } else if Fires(rs[3], s) {
      ClassifyFirstMatch(rs, s, 3);
    } else if Fires(rs[4], s) {
      ClassifyFirstMatch(rs, s, 4);
    } else {
      ClassifyDefault(rs, s);
    }
  }

  /** The text is compared case-insensitively: a status and its lower-cased form map alike. */
  lemma CaseInsensitive(s: string)
    ensures MapStatus(Some(s)) == MapStatus(Some(ToLower(s)))
  {
    ToLowerIdempotent(s);
  }

  /** An absent status behaves as the empty text and gives PENDING. */
  lemma UndefinedIsEmpty()
    ensures MapStatus(None) == MapStatus(Some("")) == PENDING
  {
  }

  /**
   * 'conclu' or 'autoriz' anywhere in the lower-cased text gives AUTHORIZED, whatever else it
   * contains; and AUTHORIZED arises from those two keywords only.
   */
  lemma AuthorizedPrecedence(status: Option<string>)
    ensures var s := NormalizeStatus(status);
      MapStatus(status) == AUTHORIZED <==> Contains(s, "conclu") || Contains(s, "autoriz")
  {
  }

  /**
   * Without an authorizing keyword, REJECTED ('rejeit'/'negad') beats CANCELED ('cancel'),
   * which beats ERROR ('erro'/'falh'); each result arises exactly in its own case, and a text
   * with none of the keywords is PENDING.
   */
  lemma LowerPriorities(status: Option<string>)
    ensures var s := NormalizeStatus(status);
      var authorizing := Contains(s, "conclu") || Contains(s, "autoriz");
      var rejecting := Contains(s, "rejeit") || Contains(s, "negad");
      var canceling := Contains(s, "cancel");
      var failing := Contains(s, "erro") || Contains(s, "falh");
      && (MapStatus(status) == REJECTED <==> !authorizing && rejecting)
      && (MapStatus(status) == CANCELED <==> !authorizing && !rejecting && canceling)
      && (MapStatus(status) == ERROR <==> !authorizing && !rejecting && !canceling && failing)
      && (MapStatus(status) == PENDING <==> !authorizing && !rejecting && !canceling && !failing)
  {
  }

  /** PROCESSING is never produced: the result is a rule's status or the PENDING default. */
  lemma NeverProcessing(status: Option<string>)
    ensures MapStatus(status) != PROCESSING
  {
    MapStatusFollowsRules(status);
    ClassifyRange(Rules(), NormalizeStatus(status));
  }

  /** An upper-case 'CONCLUIDO' is AUTHORIZED. */
  lemma ConcluidoExample()
    ensures MapStatus(Some("CONCLUIDO")) == AUTHORIZED
  {
    assert NormalizeStatus(Some("CONCLUIDO")) == "concluido";
    assert StartsWith("concluido", "conclu");
  }

  /** 'Autorizada com erro' is AUTHORIZED: the authorizing keyword outranks 'erro'. */
  lemma AuthorizedWithErrorExample()
    ensures MapStatus(Some("Autorizada com erro")) == AUTHORIZED
  {
    var a := NormalizeStatus(Some("Autorizada com erro"));
    assert a == "autorizada com erro";
    assert a == "" + "autoriz" + "ada com erro";
    ContainsInfix("", "autoriz", "ada com erro");
    AuthorizedPrecedence(Some("Autorizada com erro"));
  }

  /** 'NEGADA' is REJECTED. */
  lemma NegadaExample()
    ensures MapStatus(Some("NEGADA")) == REJECTED
  {
    var n := NormalizeStatus(Some("NEGADA"));
    assert n == "negada";
    LacksChar(n, "conclu", 'c');
    assert !Contains(n, "autoriz") by {
      if Contains(n, "autoriz") {
        ContainsNeedsLength(n, "autoriz");
      }
    }
    LacksChar(n, "rejeit", 'r');
    assert StartsWith(n, "negad");
  }

  /** The candidate fields of a PlugNotas response that may carry its status, in priority order. */
  function StatusCandidates(response: Json.Value): (c: seq<Json.Value>)
    ensures |c| == 8
  {
    var retorno := Json.Get(response, "retorno");
    [Json.Get(retorno, "situacao"), Json.Get(retorno, "status"), Json.Get(response, "status"),
     Json.Get(response, "situacao"), Json.Get(response, "statusNota"), Json.Get(response, "statusNfse"),
     Json.Get(response, "situacaoNota"), Json.Get(response, "situacaoRps")]
  }

  /** `extractPlugNotasStatus`: the `??` chain over the candidate fields. */
  function ExtractStatus(response: Json.Value): Json.Value {
    var retorno := Json.Get(response, "retorno");
    Json.Coalesce(Json.Get(retorno, "situacao"),
    Json.Coalesce(Json.Get(retorno, "status"),
    Json.Coalesce(Json.Get(response, "status"),
    Json.Coalesce(Json.Get(response, "situacao"),
    Json.Coalesce(Json.Get(response, "statusNota"),
    Json.Coalesce(Json.Get(response, "statusNfse"),
    Json.Coalesce(Json.Get(response, "situacaoNota"),
    Json.Get(response, "situacaoRps"))))))))
  }

  /**
   * The extracted status is the first present candidate; when every candidate is absent the
   * result is absent too (it is the last candidate, null or undefined).
   */
  lemma ExtractStatusPriority(response: Json.Value)
    ensures var c := StatusCandidates(response);
            var r := ExtractStatus(response);
      && (forall k :: 0 <= k < 8 && !Json.Nullish(c[k]) && (forall j :: 0 <= j < k ==> Json.Nullish(c[j])) ==> r == c[k])
      && ((forall k :: 0 <= k < 8 ==> Json.Nullish(c[k])) ==> r == c[7])
      && (Json.Nullish(r) <==> forall k :: 0 <= k < 8 ==> Json.Nullish(c[k]))
  {
    var c := StatusCandidates(response);
    var r := ExtractStatus(response);
    if !(forall k :: 0 <= k < 8 ==> Json.Nullish(c[k])) {
      var k :| 0 <= k < 8 && !Json.Nullish(c[k]);
      assert r == c[0] || r == c[1] || r == c[2] || r == c[3] || r == c[4] || r == c[5] || r == c[6] || r == c[7];
    } else {
      assert Json.Nullish(c[0]) && Json.Nullish(c[1]) && Json.Nullish(c[2]) && Json.Nullish(c[3]);
      assert Json.Nullish(c[4]) && Json.Nullish(c[5]) && Json.Nullish(c[6]) && Json.Nullish(c[7]);
    }
  }

  /** A nested `retorno.situacao` wins over a top-level `status`. */
  lemma NestedSituacaoFirst()
    ensures ExtractStatus(Json.JObj([("status", Json.JStr("PROCESSANDO")),
                                     ("retorno", Json.JObj([("situacao", Json.JStr("CONCLUIDO"))]))]))
            == Json.JStr("CONCLUIDO")
  {
  }
}
