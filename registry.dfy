/**
 * The presence registry of the relay server: the `users` map, keyed by
 * logical user id, whose values record the current socket, the public key
 * and the time of the last registration.
 *
 * The registry is a JavaScript `Map`, which iterates in insertion order:
 * `Map.set` on a key already present replaces the value in place, on a new
 * key it appends; `Map.delete` removes the key. That order matters because
 * the server resolves a socket to a user with
 * `Array.from(users.values()).find(...)`, which returns the FIRST match.
 */
module UserRegistry {

  datatype Option<T> = None | Some(value: T)

  /** One presence record (interface User). */
  datatype User = User(id: string, socketId: string, publicKey: string, lastSeen: int)

  /** `Map<string, User>`: the entries and the insertion order of their keys. */
  datatype Registry = Registry(entries: map<string, User>, order: seq<string>)

  ghost predicate Distinct(s: seq<string>) {
    forall i, j :: 0 <= i < j < |s| ==> s[i] != s[j]
  }

  /**
   * What the server keeps true of its map: the order lists every key exactly
   * once, and every entry is stored under its own id.
   */
  ghost predicate Valid(r: Registry) {
    && Distinct(r.order)
    && (forall k :: k in r.entries <==> k in r.order)
    && (forall k :: k in r.entries ==> r.entries[k].id == k)
  }

  /** `new Map()` */
  const Empty: Registry := Registry(map[], [])

  lemma EmptyValid()
    ensures Valid(Empty)
  {
  }

  /** `Array.from(users.values())`: the values in insertion order. */
  function Values(r: Registry): (vs: seq<User>)
    requires Valid(r)
    ensures |vs| == |r.order|
    ensures forall i :: 0 <= i < |vs| ==> vs[i] == r.entries[r.order[i]] && vs[i].id == r.order[i]
  {
    seq(|r.order|, i requires 0 <= i < |r.order| => r.entries[r.order[i]])
  }

  /** `order` with `k` taken out, every other key keeping its relative position. */
  function Remove(s: seq<string>, k: string): (s': seq<string>)
    ensures forall x :: x in s' <==> x in s && x != k
    ensures Distinct(s) ==> Distinct(s')
    ensures k !in s ==> s' == s
  {
    if s == [] then []
    else if s[0] == k then Remove(s[1..], k)
    else
      var rest := Remove(s[1..], k);
      assert Distinct(s) ==> Distinct([s[0]] + rest) by {
        if Distinct(s) {
          assert Distinct(s[1..]) && s[0] !in s[1..];
          forall i, j | 0 <= i < j < |[s[0]] + rest| ensures ([s[0]] + rest)[i] != ([s[0]] + rest)[j] {
            if i == 0 { assert ([s[0]] + rest)[j] == rest[j - 1] && rest[j - 1] in rest; }
          }
        }
      }
      [s[0]] + rest
  }

  /**
   * Taking out the key at position `i` of an order without repeats leaves
   * the keys before it and the keys after it, each in their old order.
   */
  lemma {:induction false} RemoveAt(s: seq<string>, k: string, i: int)
    requires Distinct(s)
    requires 0 <= i < |s| && s[i] == k
    ensures Remove(s, k) == s[..i] + s[i + 1..]
  {
    if i == 0 {
      assert k !in s[1..] by {
        forall j | 0 <= j < |s[1..]| ensures s[1..][j] != k { assert s[j + 1] != s[0]; }
      }
      assert s[..0] + s[1..] == s[1..];
    } else {
      assert Distinct(s[1..]);
      RemoveAt(s[1..], k, i - 1);
      assert s[0] != k;
      assert s[1..][..i - 1] + s[1..][i..] == s[1..i] + s[i + 1..];
      assert [s[0]] + (s[1..i] + s[i + 1..]) == s[..i] + s[i + 1..];
    }
  }

  /** Taking out a key that was just appended gives back the order before. */
  lemma {:induction false} RemoveAppended(s: seq<string>, k: string)
    requires k !in s
    ensures Remove(s + [k], k) == s
  {
    if s == [] {
      assert [k][1..] == [];
    } else {
      assert (s + [k])[1..] == s[1..] + [k];
      RemoveAppended(s[1..], k);
    }
  }

  /** `users.set(k, u)`: last writer wins, the position of an existing key is kept. */
  function Set(r: Registry, k: string, u: User): (r': Registry)
    requires Valid(r)
    requires u.id == k
    ensures Valid(r')
    ensures r'.entries == r.entries[k := u]
    ensures r'.order == if k in r.entries then r.order else r.order + [k]
  {
    Registry(r.entries[k := u], if k in r.entries then r.order else r.order + [k])
  }

  /**
   * What iteration sees after `users.set(k, u)`: a known key's value is
   * replaced in place, a new key's value comes last.
   */
  lemma SetValues(r: Registry, k: string, u: User)
    requires Valid(r)
    requires u.id == k
    ensures k in r.entries ==> |Values(Set(r, k, u))| == |Values(r)|
    ensures k in r.entries ==>
              forall i :: 0 <= i < |Values(r)| ==> Values(Set(r, k, u))[i] == if r.order[i] == k then u else Values(r)[i]
    ensures k !in r.entries ==> Values(Set(r, k, u)) == Values(r) + [u]
  {
    var r' := Set(r, k, u);
    if k in r.entries {
      forall i | 0 <= i < |Values(r)| ensures Values(r')[i] == if r.order[i] == k then u else Values(r)[i] {
        assert r'.order[i] == r.order[i];
      }
    } else {
      assert Values(r') == Values(r) + [u] by {
        forall i | 0 <= i < |Values(r')| ensures Values(r')[i] == (Values(r) + [u])[i] {
          if i < |r.order| { assert r'.order[i] == r.order[i] && r.order[i] != k; }
        }
      }
    }
  }

  /**
   * `users.delete(k)`: nothing else changes; by `RemoveAt`, the other keys
   * keep their relative order.
   */
  function Delete(r: Registry, k: string): (r': Registry)
    requires Valid(r)
    ensures Valid(r')
    ensures r'.entries == r.entries - {k}
    ensures r'.order == Remove(r.order, k)
    ensures k !in r.entries ==> r' == r
  {
    Registry(r.entries - {k}, Remove(r.order, k))
  }

  /** Setting a new key and deleting it again gives back the map, order included. */
  lemma DeleteAfterSet(r: Registry, k: string, u: User)
    requires Valid(r)
    requires u.id == k && k !in r.entries
    ensures Delete(Set(r, k, u), k) == r
  {
    RemoveAppended(r.order, k);
    assert r.entries[k := u] - {k} == r.entries;
  }

  /** `vs[i]` is the first user in `vs` whose socket is `socketId`. */
  predicate FirstOnSocket(vs: seq<User>, socketId: string, i: int) {
    && 0 <= i < |vs|
    && vs[i].socketId == socketId
    && forall j :: 0 <= j < i ==> vs[j].socketId != socketId
  }

  /** `vs.find(u => u.socketId === socketId)`. */
  function FindBySocket(vs: seq<User>, socketId: string): (r: Option<User>)
    ensures r.None? <==> forall i :: 0 <= i < |vs| ==> vs[i].socketId != socketId
    ensures r.Some? ==> exists i :: FirstOnSocket(vs, socketId, i) && vs[i] == r.value
  {
    if vs == [] then None
    else if vs[0].socketId == socketId then
      assert FirstOnSocket(vs, socketId, 0);
      Some(vs[0])
    else
      var r := FindBySocket(vs[1..], socketId);
      assert r.Some? ==> exists i :: FirstOnSocket(vs, socketId, i) && vs[i] == r.value by {
        if r.Some? {
          var i :| FirstOnSocket(vs[1..], socketId, i) && vs[1..][i] == r.value;
          assert FirstOnSocket(vs, socketId, i + 1);
        }
      }
      assert r.None? ==> forall i :: 0 <= i < |vs| ==> vs[i].socketId != socketId by {
        if r.None? {
          forall i | 0 < i < |vs| ensures vs[i].socketId != socketId {
            assert vs[i] == vs[1..][i - 1];
          }
        }
      }
      r
  }

  /**
   * The user that owns socket `socketId`, as every handler of the server
   * resolves it: the first entry in insertion order whose socket matches.
   */
  function FindSender(r: Registry, socketId: string): (u: Option<User>)
    requires Valid(r)
    ensures u.None? <==> forall k :: k in r.entries ==> r.entries[k].socketId != socketId
    ensures u.Some? ==> u.value.id in r.entries && r.entries[u.value.id] == u.value
    ensures u.Some? ==> u.value.socketId == socketId
    ensures u.Some? ==> exists i :: FirstOnSocket(Values(r), socketId, i) && r.order[i] == u.value.id
  {
    var vs := Values(r);
    var u := FindBySocket(vs, socketId);
    assert u.None? <== forall k :: k in r.entries ==> r.entries[k].socketId != socketId by {
      if u.Some? {
        var i :| FirstOnSocket(vs, socketId, i) && vs[i] == u.value;
        assert r.order[i] in r.entries;
      }
    }
    assert u.None? ==> forall k :: k in r.entries ==> r.entries[k].socketId != socketId by {
      if u.None? {
        forall k | k in r.entries ensures r.entries[k].socketId != socketId {
          var i :| 0 <= i < |r.order| && r.order[i] == k;
          assert vs[i] == r.entries[k];
        }
      }
    }
    u
  }

  /** `FindSender` as the `sender?.id` the handlers put in their `from` field. */
  function SenderId(r: Registry, socketId: string): (id: Option<string>)
    requires Valid(r)
    ensures id.None? <==> forall k :: k in r.entries ==> r.entries[k].socketId != socketId
    ensures id.Some? ==> id.value in r.entries && r.entries[id.value].socketId == socketId
    ensures id.Some? ==> exists i :: FirstOnSocket(Values(r), socketId, i) && r.order[i] == id.value
  {
    match FindSender(r, socketId)
    case None => None
    case Some(u) => Some(u.id)
  }

  /** The number of values of `vs` stored for `id`. */
  function CountId(vs: seq<User>, id: string): nat {
    if vs == [] then 0 else (if vs[0].id == id then 1 else 0) + CountId(vs[1..], id)
  }

  lemma {:induction false} CountIdOfDistinct(vs: seq<User>, ids: seq<string>, id: string)
    requires |vs| == |ids| && Distinct(ids)
    requires forall i :: 0 <= i < |vs| ==> vs[i].id == ids[i]
    ensures CountId(vs, id) == if id in ids then 1 else 0
  {
    if vs != [] {
      CountIdOfDistinct(vs[1..], ids[1..], id);
      assert id in ids <==> id == ids[0] || id in ids[1..];
      assert ids[0] !in ids[1..];
    }
  }

  /** Iterating the map yields exactly one user per registered id, none for any other. */
  lemma OneEntryPerId(r: Registry, id: string)
    requires Valid(r)
    ensures CountId(Values(r), id) == if id in r.entries then 1 else 0
  {
    CountIdOfDistinct(Values(r), r.order, id);
  }
}
