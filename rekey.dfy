/** What a loop `for key, value in d.items(): new[...] = ...` builds. Each key of the
    input yields the entries a rule gives for it, and the entries are inserted into an
    initially empty `dict`. The rule says what one iteration inserts; the loop's result
    is then fixed up to the order of iteration, which only matters where two input keys
    yield the same output key (the later one wins). */
module Rekey {
  import opened JsonValues

  /** One insertion `new[key] = value`. */
  datatype Entry = Entry(key: string, value: Json)

  /** The insertions one iteration makes for an input key and its value. */
  type Rule = (string, Json) -> seq<Entry>

  /** The keys a sequence of insertions writes. */
  function KeysOf(es: seq<Entry>): set<string>
  {
    set e | e in es :: e.key
  }

  /** `n` after the insertions `es`, in order. */
  function Put(n: Dict, es: seq<Entry>): (r: Dict)
    ensures r.Keys == n.Keys + KeysOf(es)
    ensures forall t | t in r :: Entry(t, r[t]) in es || (t in n && r[t] == n[t])
    ensures forall t | t in n && t !in KeysOf(es) :: r[t] == n[t]
    decreases |es|
  {
    if es == [] then n
    else
      assert KeysOf(es) == {es[0].key} + KeysOf(es[1..]) by {
        assert es == [es[0]] + es[1..];
      }
      Put(n[es[0].key := es[0].value], es[1..])
  }

  /** Inserting nothing changes nothing; inserting one entry is one `new[key] = value`. */
  lemma PutSmall(n: Dict, e: Entry)
    ensures Put(n, []) == n
    ensures Put(n, [e]) == n[e.key := e.value]
  {
    assert [e][1..] == [];
  }

  /** Inserting two entries is two `new[key] = value`, in order. */
  lemma PutPair(n: Dict, e: Entry, f: Entry)
    ensures Put(n, [e, f]) == n[e.key := e.value][f.key := f.value]
  {
    assert [e, f][1..] == [f];
    PutSmall(n[e.key := e.value], f);
  }

  /** `n` and `m` have the same keys and the same values at every key but `x`. */
  ghost predicate AgreeBut(n: Dict, m: Dict, x: string)
  {
    && n.Keys == m.Keys
    && forall t | t in n && t != x :: n[t] == m[t]
  }

  /** The same insertions keep two dicts agreeing wherever they agreed. */
  lemma {:induction false} PutKeepsAgreement(n: Dict, m: Dict, es: seq<Entry>, x: string)
    requires AgreeBut(n, m, x)
    ensures AgreeBut(Put(n, es), Put(m, es), x)
    decreases |es|
  {
    if es != [] {
      PutKeepsAgreement(n[es[0].key := es[0].value], m[es[0].key := es[0].value], es[1..], x);
    }
  }

  /** The part of `d` whose keys are in `keys`: the items a loop has visited so far. */
  function Restrict(d: Dict, keys: set<string>): (r: Dict)
    ensures r.Keys == d.Keys * keys
    ensures forall k | k in r :: r[k] == d[k]
  {
    map k | k in d && k in keys :: d[k]
  }

  /** The output keys some input key yields. */
  ghost function Targets(d: Dict, rule: Rule): set<string>
  {
    set k, e | k in d && e in rule(k, d[k]) :: e.key
  }

  /** Some input key yields `key: value`. */
  ghost predicate Produces(d: Dict, rule: Rule, t: string, v: Json)
  {
    exists k | k in d :: Entry(t, v) in rule(k, d[k])
  }

  /** `r` is what the loop builds from `d` for some order of its items: exactly the
      output keys the rule yields, each holding a value one of the input keys gives it. */
  ghost predicate RekeyedBy(d: Dict, rule: Rule, r: Dict)
  {
    && r.Keys == Targets(d, rule)
    && forall t | t in r :: Produces(d, rule, t, r[t])
  }

  /** Before the first iteration nothing has been visited and nothing built. */
  lemma RekeyStart(d: Dict, rule: Rule)
    ensures RekeyedBy(Restrict(d, {}), rule, map[])
  {
    assert Restrict(d, {}) == map[];
  }

  /** Visiting one more key adds the keys its entries write. */
  lemma TargetsGrow(d: Dict, rule: Rule, done: set<string>, k: string)
    requires k in d && k !in done
    ensures Targets(Restrict(d, done + {k}), rule) == Targets(Restrict(d, done), rule) + KeysOf(rule(k, d[k]))
  {
    var before := Restrict(d, done);
    var after := Restrict(d, done + {k});
    assert after == before[k := d[k]];
    forall t | t in Targets(after, rule) ensures t in Targets(before, rule) || t in KeysOf(rule(k, d[k])) {
      var k', e :| k' in after && e in rule(k', after[k']) && e.key == t;
      if k' != k {
        assert k' in before;
      }
    }
    forall t | t in Targets(before, rule) ensures t in Targets(after, rule) {
      var k', e :| k' in before && e in rule(k', before[k']) && e.key == t;
      assert k' in after;
    }
  }

  /** One more iteration, whatever key it visits, keeps the loop's result described. */
  lemma RekeyStep(d: Dict, rule: Rule, done: set<string>, n: Dict, k: string)
    requires k in d && k !in done
    requires RekeyedBy(Restrict(d, done), rule, n)
    ensures RekeyedBy(Restrict(d, done + {k}), rule, Put(n, rule(k, d[k])))
  {
    var before := Restrict(d, done);
    var after := Restrict(d, done + {k});
    var es := rule(k, d[k]);
    var r := Put(n, es);
    TargetsGrow(d, rule, done, k);
    forall t | t in r ensures Produces(after, rule, t, r[t]) {
      if Entry(t, r[t]) in es {
        assert k in after;
      } else {
        var k' :| k' in before && Entry(t, n[t]) in rule(k', before[k']);
        assert k' in after;
      }
    }
  }

  /** The loop's invariant, stated over the keys still to visit: it holds before the
      first iteration, each iteration keeps it, and after the last one the whole input
      has been rekeyed. */
  ghost predicate RekeyedSoFar(d: Dict, rule: Rule, todo: set<string>, n: Dict)
  {
    todo <= d.Keys && RekeyedBy(Restrict(d, d.Keys - todo), rule, n)
  }

  lemma RekeyLoopStart(d: Dict, rule: Rule)
    ensures RekeyedSoFar(d, rule, d.Keys, map[])
  {
    RekeyStart(d, rule);
    assert d.Keys - d.Keys == {};
  }

  lemma RekeyLoopStep(d: Dict, rule: Rule, todo: set<string>, n: Dict, k: string)
    requires RekeyedSoFar(d, rule, todo, n) && k in todo
    ensures RekeyedSoFar(d, rule, todo - {k}, Put(n, rule(k, d[k])))
  {
    RekeyStep(d, rule, d.Keys - todo, n, k);
    assert (d.Keys - todo) + {k} == d.Keys - (todo - {k});
  }

  lemma RekeyLoopEnd(d: Dict, rule: Rule, n: Dict)
    requires RekeyedSoFar(d, rule, {}, n)
    ensures RekeyedBy(d, rule, n)
  {
    assert Restrict(d, d.Keys - {}) == d;
  }

  /** An output key yielded by one input key only holds the value that key gives it. */
  lemma RekeyedSole(d: Dict, rule: Rule, r: Dict, k: string, t: string, v: Json)
    requires RekeyedBy(d, rule, r)
    requires k in d && Entry(t, v) in rule(k, d[k])
    requires forall k', e | k' in d && e in rule(k', d[k']) && e.key == t :: e == Entry(t, v)
    ensures t in r && r[t] == v
  {
    assert t in Targets(d, rule);
    var k' :| k' in d && Entry(t, r[t]) in rule(k', d[k']);
  }

  /** An output key no input key yields is absent. */
  lemma RekeyedAbsent(d: Dict, rule: Rule, r: Dict, t: string)
    requires RekeyedBy(d, rule, r)
    requires forall k, e | k in d && e in rule(k, d[k]) :: e.key != t
    ensures t !in r
  {
    assert t !in Targets(d, rule);
  }

  /** A key that only it yields, and only as itself, passes through the loop as it is. */
  lemma RekeyedKeepsOwnKey(d: Dict, rule: Rule, r: Dict, t: string)
    requires RekeyedBy(d, rule, r)
    requires t in d ==> Entry(t, d[t]) in rule(t, d[t])
    requires forall k, e | k in d && e in rule(k, d[k]) && e.key == t :: k == t && e.value == d[t]
    ensures t in r <==> t in d
    ensures t in d ==> r[t] == d[t]
  {
    if t in d {
      RekeyedSole(d, rule, r, t, t, d[t]);
    } else {
      RekeyedAbsent(d, rule, r, t);
    }
  }
}
