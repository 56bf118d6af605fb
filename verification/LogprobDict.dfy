/**
 A dictionary from token ids to logprobs, in insertion order: writing to a key that is already
 there keeps its place and replaces its value.
 */
module LogprobDict {
  import opened Wrappers

  datatype Logprob = Logprob(logprob: real, rank: Option<int>, decoded: Option<string>)

  datatype Entry = Entry(token: int, info: Logprob)

  type Dict = seq<Entry>

  ghost predicate IsDict(d: Dict) {
    forall i, j :: 0 <= i < j < |d| ==> d[i].token != d[j].token
  }

  function Put(d: Dict, e: Entry): Dict {
    if d == [] then [e]
    else if d[0].token == e.token then [e] + d[1..]
    else [d[0]] + Put(d[1..], e)
  }

  /** A dict comprehension over `es`. */
  function Build(es: seq<Entry>): Dict {
    if es == [] then [] else Put(Build(es[..|es| - 1]), es[|es| - 1])
  }

  predicate HasToken(d: Dict, t: int) {
    exists i :: 0 <= i < |d| && d[i].token == t
  }

  lemma {:induction false} PutNew(d: Dict, e: Entry)
    requires !HasToken(d, e.token)
    ensures Put(d, e) == d + [e]
  {
    if d == [] {
    } else {
      assert d[0].token != e.token;
      forall i | 0 <= i < |d| - 1 ensures d[1..][i].token != e.token { assert d[i + 1].token != e.token; }
      PutNew(d[1..], e);
    }
  }

  lemma {:induction false} PutKeepsDict(d: Dict, e: Entry)
    requires IsDict(d)
    ensures IsDict(Put(d, e))
    ensures forall t :: HasToken(Put(d, e), t) <==> HasToken(d, t) || t == e.token
  {
    var r := Put(d, e);
    if d == [] {
      assert r[0].token == e.token;
    } else if d[0].token == e.token {
      forall i | 0 <= i < |d| ensures r[i].token == d[i].token { }
      forall t ensures HasToken(r, t) <==> HasToken(d, t) || t == e.token { assert r[0].token == e.token; }
    } else {
      PutKeepsDict(d[1..], e);
      var s := Put(d[1..], e);
      assert !HasToken(d[1..], d[0].token);
      forall t ensures HasToken(r, t) <==> HasToken(d, t) || t == e.token {
        HasTokenCons(d[0], d[1..], t);
        HasTokenCons(d[0], s, t);
        assert [d[0]] + d[1..] == d;
      }
    }
  }

  /** Writing to a key that is there keeps its place; a new key goes to the end. */
  lemma {:induction false} PutKeepsPlace(d: Dict, e: Entry, i: nat)
    requires i < |d|
    ensures i < |Put(d, e)| && Put(d, e)[i].token == d[i].token
    ensures |Put(d, e)| == |d| + if HasToken(d, e.token) then 0 else 1
  {
    if d[0].token == e.token {
    } else if |d| == 1 {
      assert Put(d[1..], e) == [e];
      assert !HasToken(d, e.token);
    } else {
      PutKeepsPlace(d[1..], e, if i == 0 then 0 else i - 1);
      HasTokenCons(d[0], d[1..], e.token);
      assert [d[0]] + d[1..] == d;
    }
  }

  lemma HasTokenCons(e: Entry, d: Dict, t: int)
    ensures HasToken([e] + d, t) <==> e.token == t || HasToken(d, t)
  {
    var r := [e] + d;
    assert r[0] == e;
    if HasToken(d, t) {
      var i :| 0 <= i < |d| && d[i].token == t;
      assert r[i + 1].token == t;
    }
    if HasToken(r, t) && e.token != t {
      var i :| 0 <= i < |r| && r[i].token == t;
      assert d[i - 1].token == t;
    }
  }

  lemma {:induction false} BuildIsDict(es: seq<Entry>)
    ensures IsDict(Build(es))
  {
    if es == [] {
    } else {
      BuildIsDict(es[..|es| - 1]);
      PutKeepsDict(Build(es[..|es| - 1]), es[|es| - 1]);
    }
  }

  /** Rebuilding a dictionary from its items gives the same dictionary, order included. */
  lemma {:induction false} BuildFromItems(d: Dict)
    requires IsDict(d)
    ensures Build(d) == d
  {
    if d == [] {
    } else {
      var n := |d| - 1;
      BuildFromItems(d[..n]);
      PutNew(d[..n], d[n]);
    }
  }

  // ----- lookup: the last write wins -----

  function Lookup(d: Dict, t: int): Option<Logprob> {
    if d == [] then None else if d[0].token == t then Some(d[0].info) else Lookup(d[1..], t)
  }

  function LastWrite(es: seq<Entry>, t: int): Option<Logprob> {
    if es == [] then None
    else if es[|es| - 1].token == t then Some(es[|es| - 1].info)
    else LastWrite(es[..|es| - 1], t)
  }

  lemma {:induction false} LookupPut(d: Dict, e: Entry, t: int)
    ensures Lookup(Put(d, e), t) == if t == e.token then Some(e.info) else Lookup(d, t)
  {
    if d == [] {
    } else {
      LookupPut(d[1..], e, t);
    }
  }

  lemma {:induction false} LookupBuild(es: seq<Entry>, t: int)
    ensures Lookup(Build(es), t) == LastWrite(es, t)
  {
    if es == [] {
    } else {
      LookupBuild(es[..|es| - 1], t);
      LookupPut(Build(es[..|es| - 1]), es[|es| - 1], t);
    }
  }

  lemma {:induction false} LastWriteAfter(e: Entry, es: seq<Entry>, t: int)
    ensures LastWrite([e] + es, t) ==
      if LastWrite(es, t).Some? then LastWrite(es, t) else if e.token == t then Some(e.info) else None
  {
    var all := [e] + es;
    if es == [] {
    } else {
      assert all[..|all| - 1] == [e] + es[..|es| - 1];
      LastWriteAfter(e, es[..|es| - 1], t);
    }
  }

  /** A first write to a key that is written again later leaves every lookup unchanged. */
  lemma OverwrittenFirst(e: Entry, es: seq<Entry>, t: int)
    requires LastWrite(es, e.token).Some?
    ensures Lookup(Build([e] + es), t) == Lookup(Build(es), t)
  {
    LookupBuild([e] + es, t);
    LookupBuild(es, t);
    LastWriteAfter(e, es, t);
  }
}
