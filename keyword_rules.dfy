/**
 * The classification scheme both provider status mappers follow: an ordered
 * list of rules, each a set of keywords and the status it gives; the first
 * rule with a keyword occurring in the (lower-cased) status text wins, and
 * PENDING is the default.
 */
module KeywordRules {
  import opened Text
  import opened NfseStatus

  datatype Rule = Rule(keywords: seq<string>, status: Status)

  /** Some keyword of the list occurs in s. */
  predicate AnyContained(s: string, keywords: seq<string>) {
    exists i :: 0 <= i < |keywords| && Contains(s, keywords[i])
  }

  predicate Fires(r: Rule, s: string) {
    AnyContained(s, r.keywords)
  }

  /** The status of the first rule that fires on s, PENDING when none does. */
  function Classify(rules: seq<Rule>, s: string): Status {
    if |rules| == 0 then PENDING
    else if Fires(rules[0], s) then rules[0].status
    else Classify(rules[1..], s)
  }

  /** A rule that fires decides the result when no earlier rule fires. */
  lemma {:induction false} ClassifyFirstMatch(rules: seq<Rule>, s: string, i: nat)
    requires i < |rules| && Fires(rules[i], s)
    requires forall j :: 0 <= j < i ==> !Fires(rules[j], s)
    ensures Classify(rules, s) == rules[i].status
    decreases i
  {
    if i > 0 {
      assert !Fires(rules[0], s);
      assert forall j :: 0 <= j < i - 1 ==> rules[1..][j] == rules[j + 1];
      ClassifyFirstMatch(rules[1..], s, i - 1);
    }
  }

  /** When no rule fires the result is PENDING. */
  lemma {:induction false} ClassifyDefault(rules: seq<Rule>, s: string)
    requires forall j :: 0 <= j < |rules| ==> !Fires(rules[j], s)
    ensures Classify(rules, s) == PENDING
    decreases |rules|
  {
    if |rules| > 0 {
      assert forall j :: 0 <= j < |rules| - 1 ==> rules[1..][j] == rules[j + 1];
      ClassifyDefault(rules[1..], s);
    }
  }

  /** The result is PENDING or the status of some rule of the list. */
  lemma {:induction false} ClassifyRange(rules: seq<Rule>, s: string)
    ensures Classify(rules, s) == PENDING
         || exists j :: 0 <= j < |rules| && Fires(rules[j], s) && Classify(rules, s) == rules[j].status
    decreases |rules|
  {
    if |rules| > 0 && !Fires(rules[0], s) {
      ClassifyRange(rules[1..], s);
      if Classify(rules[1..], s) != PENDING {
        var j :| 0 <= j < |rules| - 1 && Fires(rules[1..][j], s) && Classify(rules[1..], s) == rules[1..][j].status;
        assert rules[1..][j] == rules[j + 1];
      }
    }
  }

  /** A leading rule that does not fire makes no difference. */
  lemma DropSilentRule(r: Rule, rest: seq<Rule>, s: string)
    requires !Fires(r, s)
    ensures Classify([r] + rest, s) == Classify(rest, s)
  {
    assert ([r] + rest)[1..] == rest;
  }

  /** An occurrence of t in s carries every character of t into s. */
  lemma {:induction false} ContainsKeepsChars(s: string, t: string, c: char)
    requires Contains(s, t) && c in t
    ensures c in s
    decreases |s|
  {
    if StartsWith(s, t) {
      assert s[..|t|] == t;
      var i :| 0 <= i < |t| && t[i] == c;
      assert s[i] == c;
    } else {
      ContainsKeepsChars(s[1..], t, c);
      var i :| 0 <= i < |s[1..]| && s[1..][i] == c;
      assert s[i + 1] == c;
    }
  }

  /** A text without some character of t does not contain t. */
  lemma LacksChar(s: string, t: string, c: char)
    requires c in t && c !in s
    ensures !Contains(s, t)
  {
    if Contains(s, t) {
      ContainsKeepsChars(s, t, c);
    }
  }
}
