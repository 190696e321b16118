/** Cluster ids never collide (engine/src/cluster.rs:473-511), so looking one up is unambiguous. */
module ClusterIds {
  import opened Text
  import opened Impact
  import opened Cluster
  import I = Interpret

  /** What every grouped finding satisfies: it has a consequence, and its action is a known name. */
  ghost predicate NamedKey(key: ClusterKey) {
    key.consequences != [] && exists data :: key.action == I.InstructionName(data)
  }

  predicate EndsInLetter(s: string) {
    s != "" && !IsDigit(s[|s| - 1])
  }

  predicate StartsAsConsequence(s: string) {
    s != "" && s[0] in "ntv"
  }

  lemma {:induction false} SlugShape(s: string)
    ensures |Slug(s)| == |s|
    ensures forall i :: 0 <= i < |s| ==> Slug(s)[i] == if s[i] == '_' then '-' else s[i]
  {
    if s != "" { SlugShape(s[1..]); }
  }

  lemma SlugEnds(s: string)
    requires EndsInLetter(s)
    ensures EndsInLetter(Slug(s))
  {
    SlugShape(s);
  }

  lemma ActionEnds(key: ClusterKey)
    requires NamedKey(key)
    ensures EndsInLetter(key.action)
  {
  }

  lemma ConsequenceSlug(c: EconomicConsequence)
    ensures EndsInLetter(Slug(c.AsStr())) && StartsAsConsequence(Slug(c.AsStr()))
  {
    SlugShape(c.AsStr());
  }

  lemma {:induction false} JoinShape(cs: seq<EconomicConsequence>)
    requires cs != []
    ensures EndsInLetter(JoinSlugs(cs)) && StartsAsConsequence(JoinSlugs(cs))
  {
    ConsequenceSlug(cs[0]);
    if |cs| > 1 { JoinShape(cs[1..]); }
    hide Slug, EconomicConsequence.AsStr;
  }

  lemma PlainIdShape(keys: seq<ClusterKey>, i: nat)
    requires i < |keys| && NamedKey(keys[i])
    ensures EndsInLetter(PlainId(keys, i)) && StartsAsConsequence(PlainId(keys, i))
  {
    JoinShape(keys[i].consequences);
    ActionEnds(keys[i]);
    SlugEnds(keys[i].action);
    hide JoinSlugs, Slug, CountBase;
  }

  lemma NumberedEnds(p: string, n: nat)
    requires EndsInLetter(p) && n > 0
    ensures EndsInLetter(Numbered(p, n)) <==> n == 1
  {
  }

  /** A numbered id determines both the plain id and the number. */
  lemma NumberedInjective(p: string, n: nat, q: string, m: nat)
    requires EndsInLetter(p) && EndsInLetter(q) && n > 0 && m > 0
    requires Numbered(p, n) == Numbered(q, m)
    ensures p == q && n == m
  {
    DecimalValue(n);
    DecimalValue(m);
    NumberedEnds(p, n);
    NumberedEnds(q, m);
    if n > 1 && m > 1 {
      assert Numbered(p, n) == (p + "-") + ['-'] + Decimal(n);
      assert Numbered(q, m) == (q + "-") + ['-'] + Decimal(m);
      LastSeparator(p + "-", Decimal(n), q + "-", Decimal(m), '-');
      assert (p + "-")[..|p|] == p && (q + "-")[..|q|] == q;
      DecimalInjective(n, m);
    }
  }

  lemma {:induction false} TakenGrows(keys: seq<ClusterKey>, i: nat, n: nat)
    requires i < n <= |keys|
    ensures 0 < Taken(keys, i + 1, PlainId(keys, i)) <= Taken(keys, n, PlainId(keys, i))
  {
    hide PlainId;
    if n > i + 1 { TakenGrows(keys, i, n - 1); }
  }

  /** Whatever the keys, no two clusters share an id. */
  lemma IdsDiffer(keys: seq<ClusterKey>, i: nat, j: nat)
    requires i < j < |keys| && NamedKey(keys[i]) && NamedKey(keys[j])
    ensures ClusterId(keys, i) != ClusterId(keys, j)
  {
    PlainIdShape(keys, i);
    PlainIdShape(keys, j);
    TakenGrows(keys, i, j);
    TakenGrows(keys, j, j + 1);
    var p, q := PlainId(keys, i), PlainId(keys, j);
    var n, m := Taken(keys, i + 1, p), Taken(keys, j + 1, q);
    assert p == q ==> m == Taken(keys, j, q) + 1;
    hide PlainId, Taken, Numbered, EndsInLetter;
    if Numbered(p, n) == Numbered(q, m) {
      NumberedInjective(p, n, q, m);
    }
  }

  /** No id can be mistaken for a prefixed group reference. */
  lemma IdsAreNotPrefixed(keys: seq<ClusterKey>, i: nat)
    requires i < |keys| && NamedKey(keys[i])
    ensures StartsAsConsequence(ClusterId(keys, i))
  {
    PlainIdShape(keys, i);
    hide PlainId, Taken;
  }
}
