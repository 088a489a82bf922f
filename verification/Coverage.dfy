/** How the list of known transitions grows. */
module Coverage {
  import opened Fuzzer

  predicate Distinct<T(==)>(s: seq<T>) {
    forall i, j :: 0 <= i < j < |s| ==> s[i] != s[j]
  }

  /** Later coverage extends earlier coverage by transitions that were new, each once. */
  ghost predicate Extends(before: seq<string>, after: seq<string>) {
    && before <= after
    && Distinct(after[|before|..])
    && forall t :: t in after[|before|..] ==> t !in before
  }

  lemma ExtendsTransitive(a: seq<string>, b: seq<string>, c: seq<string>)
    requires Extends(a, b) && Extends(b, c)
    ensures Extends(a, c)
  {
    var added := c[|a|..];
    var one, two := b[|a|..], c[|b|..];
    assert added == one + two;
    forall i, j | 0 <= i < j < |added| ensures added[i] != added[j] {
      if i < |one| <= j {
        assert one[i] == b[|a| + i] && two[j - |one|] in two;
      } else if |one| <= i {
        assert two[i - |one|] != two[j - |one|];
      }
    }
    forall t | t in c[|b|..] ensures t !in a && t !in b[|a|..] {
      assert t !in b;
    }
  }

  lemma {:induction false} AddCoverageExtends(coverage: seq<string>, transitions: seq<string>)
    ensures var after := AddCoverage(coverage, transitions);
            && Extends(coverage, after)
            && (forall t :: t in after <==> t in coverage || t in transitions)
    decreases |transitions|
  {
    if transitions != [] {
      var first := if transitions[0] in coverage then coverage else coverage + [transitions[0]];
      AddCoverageExtends(first, transitions[1..]);
      assert transitions == [transitions[0]] + transitions[1..];
      assert Extends(coverage, first);
      ExtendsTransitive(coverage, first, AddCoverage(coverage, transitions));
    }
  }
}
