/** The listing helper of tc_translate/utils.py (`list_available_options`):
    the terminology store's domains, languages and populated
    (domain, language) pairs, plus the pairs grouped by domain.

    The store itself is outside the model; its three answers are inputs. */
module Listing {
  import opened PyDict
  import opened Sequences

  /** The domains occurring in `pairs`. */
  ghost function Domains<D, L>(pairs: seq<(D, L)>): set<D> {
    set i | 0 <= i < |pairs| :: pairs[i].0
  }

  /** The language of pair `p` if its domain is `d`, and nothing otherwise. */
  function LanguageIf<D(==), L>(p: (D, L), d: D): seq<L> {
    if p.0 == d then [p.1] else []
  }

  /** The languages paired with domain `d`, in input order. */
  function LanguagesOf<D(==), L>(pairs: seq<(D, L)>, d: D): seq<L> {
    if |pairs| == 0 then []
    else LanguageIf(pairs[0], d) + LanguagesOf(pairs[1..], d)
  }

  /** Position of the first pair whose domain is `d`. This is the first
      occurrence of `d` among the pairs' first components; it is kept apart
      from `Validation.IndexOf` because the grouping proofs reason about the
      pairs themselves, never about a separately built sequence of domains. */
  function FirstIndex<D(==), L>(pairs: seq<(D, L)>, d: D): (i: nat)
    requires d in Domains(pairs)
    ensures i < |pairs| && pairs[i].0 == d
    ensures forall j :: 0 <= j < i ==> pairs[j].0 != d
  {
    if pairs[0].0 == d then 0
    else
      assert d in Domains(pairs[1..]) by {
        var k :| 0 <= k < |pairs| && pairs[k].0 == d;
        assert pairs[1..][k - 1] == pairs[k];
      }
      1 + FirstIndex(pairs[1..], d)
  }

  /** `keys` lists domains of `pairs` in the order of their first occurrence. */
  ghost predicate InFirstOccurrenceOrder<D, L>(pairs: seq<(D, L)>, keys: seq<D>) {
    forall i, j :: 0 <= i < j < |keys| && keys[i] in Domains(pairs) && keys[j] in Domains(pairs) ==>
      FirstIndex(pairs, keys[i]) < FirstIndex(pairs, keys[j])
  }

  /** Appending a pair extends its own domain's language list by its
      language and leaves every other domain's list as it was. */
  lemma {:induction false} LanguagesOfAppend<D, L>(pairs: seq<(D, L)>, p: (D, L), d: D)
    ensures LanguagesOf(pairs + [p], d) == LanguagesOf(pairs, d) + LanguageIf(p, d)
    decreases |pairs|
  {
    var q := pairs + [p];
    if |pairs| == 0 {
      assert q == [p] && q[1..] == [];
    } else {
      assert q[0] == pairs[0] && q[1..] == pairs[1..] + [p];
      LanguagesOfAppend(pairs[1..], p, d);
      calc {
        LanguagesOf(q, d);
        LanguageIf(pairs[0], d) + LanguagesOf(pairs[1..] + [p], d);
        LanguageIf(pairs[0], d) + (LanguagesOf(pairs[1..], d) + LanguageIf(p, d));
        (LanguageIf(pairs[0], d) + LanguagesOf(pairs[1..], d)) + LanguageIf(p, d);
      }
    }
  }

  /** A domain that does not occur has no languages. */
  lemma {:induction false} LanguagesOfAbsent<D, L>(pairs: seq<(D, L)>, d: D)
    requires d !in Domains(pairs)
    ensures LanguagesOf(pairs, d) == []
    decreases |pairs|
  {
    if |pairs| > 0 {
      assert pairs[0].0 != d;
      assert d !in Domains(pairs[1..]);
      LanguagesOfAbsent(pairs[1..], d);
    }
  }

  /** A domain that already occurs keeps its first position when a pair is
      appended. */
  lemma {:induction false} FirstIndexAppend<D, L>(pairs: seq<(D, L)>, p: (D, L), d: D)
    requires d in Domains(pairs)
    ensures d in Domains(pairs + [p])
    ensures FirstIndex(pairs + [p], d) == FirstIndex(pairs, d)
  {
    var i := FirstIndex(pairs, d);
    assert (pairs + [p])[i] == pairs[i];
  }

  /** Adding pair `p` adds its domain to the domains seen so far. */
  lemma DomainsAppend<D, L>(prefix: seq<(D, L)>, p: (D, L))
    ensures Domains(prefix + [p]) == Domains(prefix) + {p.0}
  {
    var pairs := prefix + [p];
    assert forall i :: 0 <= i < |prefix| ==> pairs[i] == prefix[i];
    assert pairs[|prefix|] == p;
  }

  /** The languages half of one grouping step. */
  lemma StepLanguages<D, L>(prefix: seq<(D, L)>, p: (D, L), prev: map<D, seq<L>>, next: map<D, seq<L>>)
    requires prev.Keys == Domains(prefix)
    requires forall d :: d in prev ==> prev[d] == LanguagesOf(prefix, d)
    requires next == prev[p.0 := (if p.0 in prev then prev[p.0] else []) + [p.1]]
    ensures forall d :: d in next ==> next[d] == LanguagesOf(prefix + [p], d)
  {
    forall d | d in next
      ensures next[d] == LanguagesOf(prefix + [p], d)
    {
      LanguagesOfAppend(prefix, p, d);
      if d == p.0 && d !in prev {
        LanguagesOfAbsent(prefix, d);
      }
    }
  }

  /** The key-order half of one grouping step, for a domain already seen. */
  lemma StepOrderSeen<D, L>(prefix: seq<(D, L)>, p: (D, L), keys: seq<D>)
    requires forall i :: 0 <= i < |keys| ==> keys[i] in Domains(prefix)
    requires InFirstOccurrenceOrder(prefix, keys)
    ensures InFirstOccurrenceOrder(prefix + [p], keys)
  {
    var pairs := prefix + [p];
    forall i, j | 0 <= i < j < |keys| && keys[i] in Domains(pairs) && keys[j] in Domains(pairs)
      ensures FirstIndex(pairs, keys[i]) < FirstIndex(pairs, keys[j])
    {
      FirstIndexAppend(prefix, p, keys[i]);
      FirstIndexAppend(prefix, p, keys[j]);
    }
  }

  /** The key-order half of one grouping step, for a new domain: it goes
      after every key already present. */
  lemma StepOrderNew<D, L>(prefix: seq<(D, L)>, p: (D, L), keys: seq<D>)
    requires forall i :: 0 <= i < |keys| ==> keys[i] in Domains(prefix)
    requires p.0 !in Domains(prefix)
    requires InFirstOccurrenceOrder(prefix, keys)
    ensures InFirstOccurrenceOrder(prefix + [p], keys + [p.0])
  {
    var pairs, keys' := prefix + [p], keys + [p.0];
    StepOrderSeen(prefix, p, keys);
    assert pairs[|prefix|] == p;
    assert FirstIndex(pairs, p.0) == |prefix|;
    forall i, j | 0 <= i < j < |keys'| && keys'[i] in Domains(pairs) && keys'[j] in Domains(pairs)
      ensures FirstIndex(pairs, keys'[i]) < FirstIndex(pairs, keys'[j])
    {
      assert keys'[i] == keys[i];
      FirstIndexAppend(prefix, p, keys[i]);
      if j < |keys| {
        assert keys'[j] == keys[j];
      }
    }
  }

  /** The grouping loop: for each pair in order, create the domain's list if
      the domain is new, then append the language to it. */
  function GroupByDomain<D(==), L>(pairs: seq<(D, L)>): (g: Dict<D, seq<L>>)
    ensures g.entries.Keys == Domains(pairs)
    ensures forall d :: d in g.entries ==> g.entries[d] == LanguagesOf(pairs, d)
    ensures InFirstOccurrenceOrder(pairs, g.keys)
    decreases |pairs|
  {
    if |pairs| == 0 then Empty()
    else
      var prefix := pairs[..|pairs| - 1];
      var p := pairs[|pairs| - 1];
      assert pairs == prefix + [p];
      var prev := GroupByDomain(prefix);
      var (domain, lang) := p;
      // A new domain starts with an empty list; the language is appended.
      var langs := if domain in prev.entries then prev.entries[domain] else [];
      var g := Set(prev, domain, langs + [lang]);
      DomainsAppend(prefix, p);
      StepLanguages(prefix, p, prev.entries, g.entries);
      assert forall i :: 0 <= i < |prev.keys| ==> prev.keys[i] in prev.entries;
      if domain in prev.entries then
        StepOrderSeen(prefix, p, prev.keys);
        g
      else
        StepOrderNew(prefix, p, prev.keys);
        g
  }

  /** The total length of the lists `vs` (Python's `sum(len(v) for v in vs)`). */
  function SumOfLengths<L>(vs: seq<seq<L>>): nat {
    if |vs| == 0 then 0 else |vs[0]| + SumOfLengths(vs[1..])
  }

  /** The number of languages `pairs` gives the domains `ks`, summed. */
  ghost function CountFor<D, L>(ks: seq<D>, pairs: seq<(D, L)>): nat {
    if |ks| == 0 then 0 else |LanguagesOf(pairs, ks[0])| + CountFor(ks[1..], pairs)
  }

  /** Removing the first pair lowers the count of each listed domain equal
      to its domain by one. */
  lemma {:induction false} CountForFirst<D, L>(ks: seq<D>, pairs: seq<(D, L)>)
    requires |pairs| > 0
    ensures CountFor(ks, pairs) == multiset(ks)[pairs[0].0] + CountFor(ks, pairs[1..])
  {
    if |ks| > 0 {
      assert ks == [ks[0]] + ks[1..];
      CountForFirst(ks[1..], pairs);
    }
  }

  /** Listing every domain of `pairs` exactly once accounts for every pair. */
  lemma {:induction false} CountForAllDomains<D, L>(ks: seq<D>, pairs: seq<(D, L)>)
    requires Distinct(ks)
    requires forall d :: d in Domains(pairs) ==> d in ks
    ensures CountFor(ks, pairs) == |pairs|
    decreases |pairs|
  {
    if |pairs| == 0 {
      CountForNone(ks, pairs);
    } else {
      CountForFirst(ks, pairs);
      assert pairs[0].0 in Domains(pairs);
      DistinctOccursOnce(ks, pairs[0].0);
      assert forall d :: d in Domains(pairs[1..]) ==> d in Domains(pairs) by {
        forall d | d in Domains(pairs[1..])
          ensures d in Domains(pairs)
        {
          var k :| 0 <= k < |pairs[1..]| && pairs[1..][k].0 == d;
          assert pairs[k + 1].0 == d;
        }
      }
      CountForAllDomains(ks, pairs[1..]);
    }
  }

  /** With no pairs, no domain has languages. */
  lemma {:induction false} CountForNone<D, L>(ks: seq<D>, pairs: seq<(D, L)>)
    requires |pairs| == 0
    ensures CountFor(ks, pairs) == 0
  {
    if |ks| > 0 {
      CountForNone(ks[1..], pairs);
    }
  }

  /** The lists of a dictionary whose lists are the domains' languages add
      up to the count of those domains' languages. */
  lemma {:induction false} SumOfGroupedLengths<D, L>(ks: seq<D>, vs: seq<seq<L>>, pairs: seq<(D, L)>)
    requires |vs| == |ks|
    requires forall i :: 0 <= i < |ks| ==> vs[i] == LanguagesOf(pairs, ks[i])
    ensures SumOfLengths(vs) == CountFor(ks, pairs)
  {
    if |ks| > 0 {
      SumOfGroupedLengths(ks[1..], vs[1..], pairs);
    }
  }

  /** Grouping neither loses nor invents a pair: the list lengths add up to
      the number of input pairs. */
  lemma GroupingKeepsEveryPair<D, L>(pairs: seq<(D, L)>)
    ensures SumOfLengths(Values(GroupByDomain(pairs))) == |pairs|
  {
    var g := GroupByDomain(pairs);
    forall d | d in Domains(pairs)
      ensures d in g.keys
    {
      assert d in g.entries;
    }
    SumOfGroupedLengths(g.keys, Values(g), pairs);
    CountForAllDomains(g.keys, pairs);
  }

  /** The answer of `list_available_options`. */
  datatype Options<D, L> = Options(
    domains: seq<D>,
    languages: seq<L>,
    domainLanguagePairs: seq<(D, L)>,
    domainsWithLanguages: Dict<D, seq<L>>)

  /** `list_available_options`: the store's domains, languages and populated
      pairs are handed through, and the pairs are grouped by domain. */
  function ListAvailableOptions<D(==), L>(domains: seq<D>, languages: seq<L>,
                                         pairs: seq<(D, L)>): (o: Options<D, L>)
    ensures o.domains == domains && o.languages == languages
    ensures o.domainLanguagePairs == pairs
    ensures o.domainsWithLanguages.entries.Keys == Domains(pairs)
    ensures forall d :: d in o.domainsWithLanguages.entries ==>
              o.domainsWithLanguages.entries[d] == LanguagesOf(pairs, d)
    ensures InFirstOccurrenceOrder(pairs, o.domainsWithLanguages.keys)
    ensures SumOfLengths(Values(o.domainsWithLanguages)) == |pairs|
  {
    GroupingKeepsEveryPair(pairs);
    Options(domains, languages, pairs, GroupByDomain(pairs))
  }
}
