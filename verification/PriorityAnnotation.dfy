/** The annotation that makes Envoy Gateway notice a change of backend priorities: it must
    change whenever the (rule, backend, priority) list does. */
module PriorityAnnotation {
  import opened Text
  import opened Wrappers

  datatype Ref = Ref(name: string, priority: Option<nat>)
  datatype Entry = Entry(rule: nat, name: string, priority: nat)

  function EntryOf(rule: nat, ref: Ref): Entry {
    Entry(rule, ref.name, ref.priority.GetOr(0))
  }

  /** The references of all rules in order, with their defaulted priorities. */
  function RuleEntries(rule: nat, refs: seq<Ref>): seq<Entry> {
    seq(|refs|, j requires 0 <= j < |refs| => EntryOf(rule, refs[j]))
  }

  function Entries(rules: seq<seq<Ref>>): seq<Entry> {
    if rules == [] then []
    else Entries(rules[..|rules| - 1]) + RuleEntries(|rules| - 1, rules[|rules| - 1])
  }

  function Item(e: Entry): string {
    Decimal(e.rule) + [':'] + (e.name + [':'] + Decimal(e.priority))
  }

  function Items(es: seq<Entry>): seq<string> {
    seq(|es|, i requires 0 <= i < |es| => Item(es[i]))
  }

  /** strings.Join with a comma. */
  function Join(parts: seq<string>): string {
    if parts == [] then "" else if |parts| == 1 then parts[0] else parts[0] + [','] + Join(parts[1..])
  }

  /** buildPriorityAnnotation. */
  method BuildPriorityAnnotation(rules: seq<seq<Ref>>) returns (annotation: string)
    ensures annotation == Join(Items(Entries(rules)))
  {
    var priorities: seq<string> := [];
    for i := 0 to |rules|
      invariant priorities == Items(Entries(rules[..i]))
    {
      assert rules[..i + 1][..i] == rules[..i];
      ghost var before := Entries(rules[..i]);
      for j := 0 to |rules[i]|
        invariant priorities == Items(before + RuleEntries(i, rules[i][..j]))
      {
        var br := rules[i][j];
        var priority := 0;
        if br.priority.Some? {
          priority := br.priority.value;
        }
        assert RuleEntries(i, rules[i][..j + 1]) == RuleEntries(i, rules[i][..j]) + [EntryOf(i, br)];
        assert before + RuleEntries(i, rules[i][..j + 1]) ==
          (before + RuleEntries(i, rules[i][..j])) + [EntryOf(i, br)];
        priorities := priorities + [Item(Entry(i, br.name, priority))];
      }
      assert rules[i][..|rules[i]|] == rules[i];
    }
    assert rules[..|rules|] == rules;
    annotation := Join(priorities);
  }

  predicate PlainNames(es: seq<Entry>) {
    forall i :: 0 <= i < |es| ==> ':' !in es[i].name && ',' !in es[i].name
  }

  lemma ItemShape(e: Entry)
    requires ':' !in e.name && ',' !in e.name
    ensures ',' !in Item(e) && Item(e) != ""
  {
    DecimalDigits(e.rule);
    DecimalDigits(e.priority);
  }

  lemma ItemInjective(e: Entry, e': Entry)
    requires ':' !in e.name && ':' !in e'.name && Item(e) == Item(e')
    ensures e == e'
  {
    DecimalDigits(e.rule);
    DecimalDigits(e'.rule);
    CutFirst(Decimal(e.rule), e.name + [':'] + Decimal(e.priority), Decimal(e'.rule),
             e'.name + [':'] + Decimal(e'.priority), ':');
    CutFirst(e.name, Decimal(e.priority), e'.name, Decimal(e'.priority), ':');
    DecimalInjective(e.rule, e'.rule);
    DecimalInjective(e.priority, e'.priority);
  }

  predicate CommaFree(parts: seq<string>) {
    forall i :: 0 <= i < |parts| ==> parts[i] != "" && ',' !in parts[i]
  }

  lemma {:induction false} JoinInjective(a: seq<string>, b: seq<string>)
    requires CommaFree(a) && CommaFree(b) && Join(a) == Join(b)
    ensures a == b
  {
    assert |a| > 1 ==> Join(a)[|a[0]|] == ',' && ',' in Join(a);
    assert |b| > 1 ==> Join(b)[|b[0]|] == ',' && ',' in Join(b);
    assert |a| == 1 ==> ',' !in Join(a);
    assert |b| == 1 ==> ',' !in Join(b);
    if |a| > 1 && |b| > 1 {
      CutFirst(a[0], Join(a[1..]), b[0], Join(b[1..]), ',');
      JoinInjective(a[1..], b[1..]);
      assert a == [a[0]] + a[1..] && b == [b[0]] + b[1..];
    } else if |a| == 1 && |b| == 1 {
      assert a == [a[0]] && b == [b[0]];
    }
  }

  /** Two rule lists get the same annotation exactly when their flattened lists agree. */
  lemma AnnotationInjective(rules: seq<seq<Ref>>, rules': seq<seq<Ref>>)
    requires PlainNames(Entries(rules)) && PlainNames(Entries(rules'))
    ensures Join(Items(Entries(rules))) == Join(Items(Entries(rules'))) <==> Entries(rules) == Entries(rules')
  {
    var es, es' := Entries(rules), Entries(rules');
    forall i | 0 <= i < |es| ensures Items(es)[i] != "" && ',' !in Items(es)[i] {
      ItemShape(es[i]);
    }
    forall i | 0 <= i < |es'| ensures Items(es')[i] != "" && ',' !in Items(es')[i] {
      ItemShape(es'[i]);
    }
    if Join(Items(es)) == Join(Items(es')) {
      JoinInjective(Items(es), Items(es'));
      assert |es| == |Items(es)| == |es'|;
      forall i | 0 <= i < |es| ensures es[i] == es'[i] {
        assert Items(es)[i] == Items(es')[i];
        ItemInjective(es[i], es'[i]);
      }
    }
  }

  /** A reordering of references across rules, or a priority moved between two references,
      is seen; an omitted priority and an explicit 0 are not told apart. */
  lemma {:induction false} DefaultedPriorityIsInvisible(rules: seq<seq<Ref>>, i: nat, j: nat)
    requires i < |rules| && j < |rules[i]| && rules[i][j].priority == None
    ensures Entries(rules) == Entries(rules[i := rules[i][j := Ref(rules[i][j].name, Some(0))]])
    decreases |rules|
  {
    var n := |rules| - 1;
    var changed := rules[i := rules[i][j := Ref(rules[i][j].name, Some(0))]];
    assert RuleEntries(n, changed[n]) == RuleEntries(n, rules[n]);
    if i < n {
      DefaultedPriorityIsInvisible(rules[..n], i, j);
      assert changed[..n] == rules[..n][i := changed[i]];
    } else {
      assert changed[..n] == rules[..n];
    }
  }
}
