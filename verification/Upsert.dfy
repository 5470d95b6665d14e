/** Bringing a keyed table in line with a list of declarations, one declaration after another. */
module Upserts {
  import opened Text

  function Row<R>(rows: map<string, R>, k: string): Option<R> { if k in rows then Some(rows[k]) else None }

  function KeySet<C>(cs: seq<C>, key: C -> string): set<string> {
    set i | 0 <= i < |cs| :: key(cs[i])
  }

  predicate Distinct<C>(cs: seq<C>, key: C -> string) {
    forall i, j :: 0 <= i < j < |cs| ==> key(cs[i]) != key(cs[j])
  }

  /** `after(old row, declaration)` is the row a declaration leaves. */
  function Upsert<R, C>(rows: map<string, R>, cs: seq<C>, key: C -> string, after: (Option<R>, C) -> R): map<string, R> {
    if cs == [] then rows
    else
      var n := |cs| - 1;
      var m := Upsert(rows, cs[..n], key, after);
      m[key(cs[n]) := after(Row(m, key(cs[n])), cs[n])]
  }

  /** What was noted about each declaration at its turn. */
  function Notes<R, C, N>(rows: map<string, R>, cs: seq<C>, key: C -> string, after: (Option<R>, C) -> R,
                          note: (Option<R>, C) -> N): seq<N>
  {
    if cs == [] then []
    else
      var n := |cs| - 1;
      Notes(rows, cs[..n], key, after, note) + [note(Row(Upsert(rows, cs[..n], key, after), key(cs[n])), cs[n])]
  }

  lemma KeyIndex<C>(cs: seq<C>, key: C -> string, k: string) returns (i: nat)
    requires k in KeySet(cs, key)
    ensures i < |cs| && key(cs[i]) == k
  {
    i :| i < |cs| && key(cs[i]) == k;
  }

  lemma KeyOfPrefix<C>(cs: seq<C>, key: C -> string, n: nat, k: string)
    requires n <= |cs|
    ensures k in KeySet(cs[..n], key) ==> k in KeySet(cs, key)
  {
    if k in KeySet(cs[..n], key) {
      var i := KeyIndex(cs[..n], key, k);
      assert key(cs[i]) == k;
    }
  }

  /** A row that no declaration names is left alone. */
  lemma {:induction false} UpsertMiss<R, C>(rows: map<string, R>, cs: seq<C>, key: C -> string,
                                            after: (Option<R>, C) -> R, k: string)
    requires k !in KeySet(cs, key)
    ensures Row(Upsert(rows, cs, key, after), k) == Row(rows, k)
  {
    if cs != [] {
      var n := |cs| - 1;
      KeyOfPrefix(cs, key, n, k);
      assert key(cs[n]) in KeySet(cs, key);
      UpsertMiss(rows, cs[..n], key, after, k);
    }
  }

  /** With distinct keys every declaration acts on its own old row, whatever the order. */
  lemma {:induction false} UpsertHit<R, C>(rows: map<string, R>, cs: seq<C>, key: C -> string,
                                           after: (Option<R>, C) -> R, i: nat)
    requires Distinct(cs, key) && i < |cs|
    ensures Row(Upsert(rows, cs, key, after), key(cs[i])) == Some(after(Row(rows, key(cs[i])), cs[i]))
  {
    var n := |cs| - 1;
    var pre := cs[..n];
    assert Distinct(pre, key);
    if i < n {
      assert pre[i] == cs[i];
      UpsertHit(rows, pre, key, after, i);
    } else {
      LastKeyIsNew(cs, key);
      UpsertMiss(rows, pre, key, after, key(cs[n]));
    }
  }

  lemma LastKeyIsNew<C>(cs: seq<C>, key: C -> string)
    requires cs != [] && Distinct(cs, key)
    ensures key(cs[|cs| - 1]) !in KeySet(cs[..|cs| - 1], key)
  {
    var n := |cs| - 1;
    if key(cs[n]) in KeySet(cs[..n], key) {
      var i := KeyIndex(cs[..n], key, key(cs[n]));
    }
  }

  lemma {:induction false} UpsertKeys<R, C>(rows: map<string, R>, cs: seq<C>, key: C -> string, after: (Option<R>, C) -> R)
    ensures Upsert(rows, cs, key, after).Keys == rows.Keys + KeySet(cs, key)
  {
    if cs != [] {
      var n := |cs| - 1;
      UpsertKeys(rows, cs[..n], key, after);
      assert KeySet(cs, key) == KeySet(cs[..n], key) + {key(cs[n])} by {
        assert forall i :: 0 <= i < n ==> key(cs[i]) == key(cs[..n][i]);
      }
    }
  }

  lemma {:induction false} NotesAt<R, C, N>(rows: map<string, R>, cs: seq<C>, key: C -> string,
                                            after: (Option<R>, C) -> R, note: (Option<R>, C) -> N)
    requires Distinct(cs, key)
    ensures var a := Notes(rows, cs, key, after, note);
            |a| == |cs| && forall i :: 0 <= i < |cs| ==> a[i] == note(Row(rows, key(cs[i])), cs[i])
  {
    if cs != [] {
      var n := |cs| - 1;
      assert Distinct(cs[..n], key);
      NotesAt(rows, cs[..n], key, after, note);
      LastKeyIsNew(cs, key);
      UpsertMiss(rows, cs[..n], key, after, key(cs[n]));
    }
  }

  /** If each row already is what its declaration would leave, nothing changes. */
  lemma {:induction false} UpsertFixpoint<R, C>(rows: map<string, R>, cs: seq<C>, key: C -> string,
                                                after: (Option<R>, C) -> R)
    requires forall i :: 0 <= i < |cs| ==> key(cs[i]) in rows && after(Some(rows[key(cs[i])]), cs[i]) == rows[key(cs[i])]
    ensures Upsert(rows, cs, key, after) == rows
  {
    if cs != [] {
      var n := |cs| - 1;
      assert forall i :: 0 <= i < n ==> cs[..n][i] == cs[i];
      UpsertFixpoint(rows, cs[..n], key, after);
    }
  }
}
