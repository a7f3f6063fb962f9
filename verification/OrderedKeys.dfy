/** Iterating the keys of an ordered map in ascending order. */
module OrderedKeys {

  /** Lexicographic order on `(row, offset)` keys. */
  predicate Less(a: (nat, nat), b: (nat, nat)) {
    a.0 < b.0 || (a.0 == b.0 && a.1 < b.1)
  }

  ghost predicate InOrder(keys: seq<(nat, nat)>) {
    forall i, k :: 0 <= i < k < |keys| ==> Less(keys[i], keys[k])
  }

  ghost predicate Least(k: (nat, nat), s: set<(nat, nat)>) {
    k in s && forall x :: x in s ==> x == k || Less(k, x)
  }

  lemma {:induction false} LeastExists(s: set<(nat, nat)>) returns (k: (nat, nat))
    requires s != {}
    ensures Least(k, s)
  {
    var any :| any in s;
    k := any;
    var rest := s - {any};
    if rest != {} {
      var k' := LeastExists(rest);
      if Less(k', any) { k := k'; }
      forall x | x in s ensures x == k || Less(k, x) { assert x == any || x in rest; }
    } else {
      forall x | x in s ensures x == k { assert x == any || x in rest; }
    }
  }

  method KeysInOrder(s: set<(nat, nat)>) returns (keys: seq<(nat, nat)>)
    ensures InOrder(keys) && |keys| == |s|
    ensures forall k :: k in keys <==> k in s
  {
    keys := [];
    var rest := s;
    while rest != {}
      invariant rest <= s && |keys| + |rest| == |s|
      invariant InOrder(keys)
      invariant forall k :: k in s <==> k in rest || k in keys
      invariant forall i, x :: 0 <= i < |keys| && x in rest ==> Less(keys[i], x)
    {
      ghost var least := LeastExists(rest);
      var k: (nat, nat) :| k in rest && forall x :: x in rest ==> x == k || Less(k, x);
      keys := keys + [k];
      rest := rest - {k};
    }
  }

  ghost predicate Ascending(keys: seq<nat>) {
    forall i, k :: 0 <= i < k < |keys| ==> keys[i] < keys[k]
  }

  lemma {:induction false} MinExists(s: set<nat>) returns (k: nat)
    requires s != {}
    ensures k in s && forall x :: x in s ==> k <= x
  {
    var any :| any in s;
    k := any;
    var rest := s - {any};
    if rest != {} {
      var k' := MinExists(rest);
      if k' < any { k := k'; }
      forall x | x in s ensures k <= x { assert x == any || x in rest; }
    } else {
      forall x | x in s ensures k <= x { assert x == any || x in rest; }
    }
  }

  method NumbersInOrder(s: set<nat>) returns (keys: seq<nat>)
    ensures Ascending(keys) && forall k :: k in keys <==> k in s
  {
    keys := [];
    var rest := s;
    while rest != {}
      invariant rest <= s
      invariant Ascending(keys)
      invariant forall k :: k in s <==> k in rest || k in keys
      invariant forall i, x :: 0 <= i < |keys| && x in rest ==> keys[i] < x
    {
      ghost var least := MinExists(rest);
      var k: nat :| k in rest && forall x :: x in rest ==> k <= x;
      keys := keys + [k];
      rest := rest - {k};
    }
  }
}
