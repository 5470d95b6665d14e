/** The order in which the store lists its keys: text order of the identifiers. */
module IdOrder {

  predicate Less(a: string, b: string) {
    b != [] && (a == [] || a[0] < b[0] || (a[0] == b[0] && Less(a[1..], b[1..])))
  }

  lemma {:induction false} Irreflexive(a: string)
    ensures !Less(a, a)
  {
    if a != [] {
      Irreflexive(a[1..]);
    }
  }

  lemma {:induction false} Transitive(a: string, b: string, c: string)
    requires Less(a, b) && Less(b, c)
    ensures Less(a, c)
  {
    if a != [] && a[0] == b[0] == c[0] {
      Transitive(a[1..], b[1..], c[1..]);
    }
  }

  lemma {:induction false} Total(a: string, b: string)
    ensures Less(a, b) || a == b || Less(b, a)
  {
    if a != [] && b != [] && a[0] == b[0] {
      Total(a[1..], b[1..]);
      if a[1..] == b[1..] {
        assert a == [a[0]] + a[1..] && b == [b[0]] + b[1..];
      }
    }
  }

  ghost predicate Ascending(s: seq<string>) {
    forall i, j :: 0 <= i < j < |s| ==> Less(s[i], s[j])
  }

  lemma AscendingAppend(s: seq<string>, m: string)
    requires Ascending(s) && forall x :: x in s ==> Less(x, m)
    ensures Ascending(s + [m])
  {
    var t := s + [m];
    forall i, j | 0 <= i < j < |t|
      ensures Less(t[i], t[j])
    {
      assert t[i] == s[i] && s[i] in s;
      assert j < |s| ==> t[j] == s[j];
    }
  }

  method Least(s: set<string>) returns (m: string)
    requires s != {}
    ensures m in s && forall x :: x in s ==> x == m || Less(m, x)
  {
    m :| m in s;
    var todo := s - {m};
    while todo != {}
      invariant m in s && todo <= s
      invariant forall x :: x in s && x !in todo ==> x == m || Less(m, x)
      decreases todo
    {
      var x :| x in todo;
      Total(x, m);
      if Less(x, m) {
        forall y | y in s && y !in todo
          ensures y == x || Less(x, y)
        {
          if y != m {
            Transitive(x, m, y);
          }
        }
        m := x;
      }
      todo := todo - {x};
    }
  }

  /** The first `limit` keys above `after`, in order; keys left out come after all of them. */
  ghost predicate IsPage(keys: set<string>, after: string, limit: nat, page: seq<string>) {
    && Ascending(page) && |page| <= limit
    && (forall x :: x in page ==> x in keys && Less(after, x))
    && (forall x :: x in keys && Less(after, x) && x !in page ==> |page| == limit && forall y :: y in page ==> Less(y, x))
  }

  method Page(keys: set<string>, after: string, limit: nat) returns (page: seq<string>)
    ensures IsPage(keys, after, limit, page)
  {
    page := [];
    var above := set x | x in keys && Less(after, x);
    var left := above;
    while left != {} && |page| < limit
      invariant left <= above && |page| <= limit
      invariant Ascending(page)
      invariant forall x :: x in page ==> x in above && x !in left && forall y :: y in left ==> Less(x, y)
      invariant forall x :: x in above && x !in left ==> x in page
      decreases left
    {
      var m := Least(left);
      Irreflexive(m);
      AscendingAppend(page, m);
      left := left - {m};
      page := page + [m];
    }
  }
}
