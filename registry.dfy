/** The relay's `clients` registry: a JavaScript `Map` from user id to the
    client record. A `Map` remembers insertion order (its iteration order), so
    it is modelled as a sequence of entries with pairwise distinct keys:
    `set` on a present key replaces that entry where it stands, on a new key
    appends, and `delete` removes the entry. */
module Registry {
  import opened Json

  /** The relay's handle for one WebSocket connection (`ws`). */
  type SocketId = nat

  /** The record `{ ws, username }` stored per user id. */
  datatype Client = Client(ws: SocketId, username: Value)

  datatype Entry = Entry(id: Value, client: Client)

  function Keys(es: seq<Entry>): seq<Value>
  {
    if es == [] then [] else [es[0].id] + Keys(es[1..])
  }

  predicate DistinctKeys(es: seq<Entry>)
  {
    forall i, j :: 0 <= i < j < |es| ==> es[i].id != es[j].id
  }

  /** `clients.get(k)`: present exactly for the registered keys. */
  function Lookup(es: seq<Entry>, k: Value): (r: Option<Client>)
    ensures r.None? <==> k !in Keys(es)
  {
    if es == [] then None
    else if es[0].id == k then Some(es[0].client)
    else Lookup(es[1..], k)
  }

  /** `clients.set(k, c)`: afterwards `k` maps to `c`, every other key maps to
      what it mapped to before, and the insertion order is kept (a new key goes
      last, a present key keeps its place). */
  function Set(es: seq<Entry>, k: Value, c: Client): (r: seq<Entry>)
    requires DistinctKeys(es)
    ensures DistinctKeys(r)
    ensures Lookup(r, k) == Some(c)
    ensures forall k' :: k' != k ==> Lookup(r, k') == Lookup(es, k')
    ensures Keys(r) == if k in Keys(es) then Keys(es) else Keys(es) + [k]
  {
    if es == [] then [Entry(k, c)]
    else if es[0].id == k then
      assert ([Entry(k, c)] + es[1..])[1..] == es[1..];
      assert es == [es[0]] + es[1..];
      DistinctCons(es[0], es[1..]);
      DistinctCons(Entry(k, c), es[1..]);
      [Entry(k, c)] + es[1..]
    else
      var rest := Set(es[1..], k, c);
      assert ([es[0]] + rest)[1..] == rest;
      assert es == [es[0]] + es[1..];
      DistinctCons(es[0], es[1..]);
      DistinctCons(es[0], rest);
      [es[0]] + rest
  }

  lemma KeysIn(es: seq<Entry>, k: Value)
    ensures k in Keys(es) <==> exists i :: 0 <= i < |es| && es[i].id == k
  {
    if es != [] {
      KeysIn(es[1..], k);
      if k in Keys(es[1..]) {
        var i :| 0 <= i < |es| - 1 && es[1..][i].id == k;
        assert es[i + 1].id == k;
      }
    }
  }

  /** Distinct keys, seen one entry at a time. */
  lemma DistinctCons(e: Entry, rest: seq<Entry>)
    ensures DistinctKeys([e] + rest) <==> DistinctKeys(rest) && e.id !in Keys(rest)
  {
    var es := [e] + rest;
    KeysIn(rest, e.id);
    forall i | 0 <= i < |rest| ensures es[i + 1] == rest[i] { }
    if DistinctKeys(rest) && e.id !in Keys(rest) {
      forall i, j | 0 <= i < j < |es| ensures es[i].id != es[j].id {
        assert es[j] == rest[j - 1];
        if i > 0 { assert es[i] == rest[i - 1]; }
      }
    }
    if DistinctKeys(es) {
      forall i | 0 <= i < |rest| ensures rest[i].id != e.id {
        assert es[0].id != es[i + 1].id;
      }
    }
  }

  /** `clients.delete(k)`: afterwards `k` is absent, every other key maps to
      what it mapped to before, and the remaining entries keep their order. */
  function Delete(es: seq<Entry>, k: Value): (r: seq<Entry>)
    requires DistinctKeys(es)
    ensures DistinctKeys(r)
    ensures Lookup(r, k) == None
    ensures forall k' :: k' != k ==> Lookup(r, k') == Lookup(es, k')
    ensures forall e :: e in r <==> e in es && e.id != k
    ensures |r| == if k in Keys(es) then |es| - 1 else |es|
    ensures Keys(r) == Without(Keys(es), k)
  {
    if es == [] then []
    else if es[0].id == k then
      assert es == [es[0]] + es[1..];
      DistinctCons(es[0], es[1..]);
      KeysIn(es[1..], k);
      WithoutAbsent(Keys(es[1..]), k);
      es[1..]
    else
      var rest := Delete(es[1..], k);
      assert ([es[0]] + rest)[1..] == rest;
      assert es == [es[0]] + es[1..];
      DistinctCons(es[0], es[1..]);
      KeysIn(rest, es[0].id);
      KeysIn(es[1..], es[0].id);
      DistinctCons(es[0], rest);
      [es[0]] + rest
  }

  /** `ks` with every occurrence of `k` removed, the rest in order. */
  function Without(ks: seq<Value>, k: Value): seq<Value>
  {
    if ks == [] then [] else (if ks[0] == k then [] else [ks[0]]) + Without(ks[1..], k)
  }

  lemma {:induction false} WithoutAbsent(ks: seq<Value>, k: Value)
    requires k !in ks
    ensures Without(ks, k) == ks
  {
    if ks != [] {
      WithoutAbsent(ks[1..], k);
      assert ks == [ks[0]] + ks[1..];
    }
  }
}
