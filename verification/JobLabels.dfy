/** Label matching (`labels_satisfy`): which agents may run which tasks. */
module JobLabels {
  /** The part of a label before its first '='; a label without '=' is all key. */
  function KeyOf(tag: string): (key: string)
    ensures '=' !in key && key <= tag
    ensures |key| < |tag| ==> tag[|key|] == '='
    ensures '=' in tag <==> |key| < |tag|
  {
    if tag == "" || tag[0] == '=' then "" else [tag[0]] + KeyOf(tag[1..])
  }

  /** The part after its first '='. */
  function ValueOf(tag: string): (value: string)
    requires '=' in tag
    ensures tag == KeyOf(tag) + "=" + value
  {
    tag[|KeyOf(tag)| + 1..]
  }

  /** A label provides a requirement with the same key, if the value is the same or not asked for. */
  predicate Provides(tag: string, need: string) {
    KeyOf(tag) == KeyOf(need) && ('=' in need ==> '=' in tag && ValueOf(tag) == ValueOf(need))
  }

  ghost predicate Satisfies(labels: seq<string>, needs: seq<string>) {
    forall i :: 0 <= i < |needs| ==> exists k :: 0 <= k < |labels| && Provides(labels[k], needs[i])
  }

  /** An agent that carries exactly the requirement satisfies it; one without labels satisfies nothing. */
  lemma OneLabel(need: string)
    ensures Satisfies([need], [need]) && !Satisfies([], [need])
  {
    var one := [need];
    assert Provides(one[0], one[0]);
  }

  /** The comparisons of the inner loop. */
  predicate Matches(tag: string, need: string) {
    if '=' in need then tag == need else tag == need || need + "=" <= tag
  }

  /** A bare requirement names a whole key: no proper prefix of a key ever matches. */
  lemma {:induction false} BareNeedIsKey(tag: string, need: string)
    requires '=' !in need
    ensures Matches(tag, need) <==> KeyOf(tag) == need
  {
    if tag == "" || need == "" || tag[0] == '=' || need[0] != tag[0] {
    } else {
      BareNeedIsKey(tag[1..], need[1..]);
      assert '=' !in need[1..];
      assert need == [need[0]] + need[1..] && tag == [tag[0]] + tag[1..];
      assert need + "=" == [need[0]] + (need[1..] + "=");
    }
  }

  /** The string comparisons decide what they are meant to decide. */
  lemma MatchesIff(tag: string, need: string)
    ensures Matches(tag, need) <==> Provides(tag, need)
  {
    if '=' in need {
      assert Provides(tag, need) ==> tag == KeyOf(need) + "=" + ValueOf(need);
    } else {
      BareNeedIsKey(tag, need);
    }
  }

  method LabelsSatisfy(labels: seq<string>, needs: seq<string>) returns (ok: bool)
    ensures ok <==> Satisfies(labels, needs)
  {
    for i := 0 to |needs|
      invariant Satisfies(labels, needs[..i])
    {
      var found := false;
      for k := 0 to |labels|
        invariant !found
        invariant forall m :: 0 <= m < k ==> !Provides(labels[m], needs[i])
      {
        MatchesIff(labels[k], needs[i]);
        if Matches(labels[k], needs[i]) {
          found := true;
          break;
        }
      }
      if !found {
        return false;
      }
    }
    assert needs[..|needs|] == needs;
    return true;
  }
}
