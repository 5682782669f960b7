/**
 The canonical JSON text that the audit log hashes (internal/audit/audit.go, canonicalJSON):
 the fields of an event as a Go map, printed with its keys in sorted order.
 A Go map is walked in an unspecified order; the text must not depend on it.
 */
module CanonicalJson {
  import opened StringOrder

  ghost predicate Sorted(keys: seq<string>) {
    forall i, j :: 0 <= i < j < |keys| ==> keys[i] != keys[j] && LessEq(keys[i], keys[j])
  }

  ghost predicate SameElements(a: seq<string>, b: seq<string>) {
    forall k :: k in a <==> k in b
  }

  lemma HeadIsElement(a: seq<string>)
    ensures a != [] ==> a[0] in a
  {}

  /** A set of keys has one sorted listing. */
  lemma {:induction false} SortedUnique(a: seq<string>, b: seq<string>)
    requires Sorted(a) && Sorted(b) && SameElements(a, b)
    ensures a == b
  {
    HeadIsElement(a);
    HeadIsElement(b);
    if a != [] {
      var first := a[0];
      assert first in b;
      assert a[0] == b[0] by {
        assert a[0] in b && b[0] in a;
        if a[0] != b[0] {
          LessEqAntisymmetric(a[0], b[0]);
        }
      }
      forall k ensures k in a[1..] <==> k in b[1..] {
        assert k in a <==> k == a[0] || k in a[1..];
        assert k in b <==> k == b[0] || k in b[1..];
      }
      SortedUnique(a[1..], b[1..]);
    }
  }

  function Insert(k: string, keys: seq<string>): (r: seq<string>)
    ensures forall x :: x in r <==> x == k || x in keys
  {
    if keys == [] then [k]
    else if LessEq(k, keys[0]) then [k] + keys
    else [keys[0]] + Insert(k, keys[1..])
  }

  lemma {:induction false} InsertSorted(k: string, keys: seq<string>)
    requires Sorted(keys) && k !in keys
    ensures Sorted(Insert(k, keys))
  {
    if keys != [] {
      LessEqTotal(k, keys[0]);
      if LessEq(k, keys[0]) {
        forall j | 0 <= j < |keys| ensures LessEq(k, keys[j]) {
          if j > 0 { LessEqTransitive(k, keys[0], keys[j]); }
        }
      } else {
        InsertSorted(k, keys[1..]);
        var tail := Insert(k, keys[1..]);
        forall j | 0 <= j < |tail| ensures tail[j] != keys[0] && LessEq(keys[0], tail[j]) {
          assert tail[j] == k || tail[j] in keys[1..];
        }
      }
    }
  }

  /** sort.Strings; for distinct keys any correct sort gives this listing (SortedUnique). */
  function SortStrings(keys: seq<string>): (r: seq<string>)
    ensures SameElements(r, keys)
  {
    if keys == [] then [] else Insert(keys[0], SortStrings(keys[1..]))
  }

  ghost predicate Distinct(keys: seq<string>) {
    forall i, j :: 0 <= i < j < |keys| ==> keys[i] != keys[j]
  }

  lemma {:induction false} SortStringsSorts(keys: seq<string>)
    requires Distinct(keys)
    ensures Sorted(SortStrings(keys))
  {
    if keys != [] {
      SortStringsSorts(keys[1..]);
      InsertSorted(keys[0], SortStrings(keys[1..]));
    }
  }

  /** The sorted listing of a set of keys. */
  ghost function SortedKeys(keys: set<string>): (r: seq<string>)
    ensures Sorted(r) && forall k :: k in r <==> k in keys
  {
    if keys == {} then []
    else
      var k :| k in keys;
      var rest := SortedKeys(keys - {k});
      InsertSorted(k, rest);
      Insert(k, rest)
  }

  /** The members of the object: `"k":v` joined by commas. */
  function Members(quote: string -> string, keys: seq<string>, m: map<string, string>): string
    requires forall k :: k in keys ==> k in m
  {
    if keys == [] then ""
    else
      var member := quote(keys[|keys| - 1]) + ":" + m[keys[|keys| - 1]];
      if |keys| == 1 then member
      else Members(quote, keys[..|keys| - 1], m) + "," + member
  }

  /** The canonical text of an object: its members in the one sorted order. */
  ghost function Canonical(quote: string -> string, m: map<string, string>): string {
    "{" + Members(quote, SortedKeys(m.Keys), m) + "}"
  }

  lemma NoMembers(quote: string -> string, m: map<string, string>)
    ensures Members(quote, [], m) == ""
  {}

  lemma MembersNext(quote: string -> string, keys: seq<string>, m: map<string, string>, i: nat)
    requires i < |keys| && forall k :: k in keys ==> k in m
    ensures var member := quote(keys[i]) + ":" + m[keys[i]];
            Members(quote, keys[..i + 1], m)
            == if i > 0 then Members(quote, keys[..i], m) + "," + member else member
  {
    assert keys[..i + 1][..i] == keys[..i];
  }

  /** The keys of a map, in whatever order the walk over the map gives them. */
  method WalkKeys(m: map<string, string>) returns (keys: seq<string>)
    ensures Distinct(keys) && forall k :: k in keys <==> k in m
  {
    keys := [];
    var left := m.Keys;
    while left != {}
      invariant Distinct(keys)
      invariant forall k :: k in m <==> k in keys || k in left
      invariant forall k :: k in keys ==> k !in left
      decreases left
    {
      var k :| k in left;
      keys := keys + [k];
      left := left - {k};
    }
  }

  /**
   canonicalJSON, from the decoded map on. The map is walked in an arbitrary order,
   yet the text is the one canonical text.
   */
  method CanonicalJSON(quote: string -> string, m: map<string, string>) returns (buf: string)
    ensures buf == Canonical(quote, m)
  {
    hide Members;
    var keys := WalkKeys(m);
    NoMembers(quote, m);
    SortStringsSorts(keys);
    keys := SortStrings(keys);
    SortedUnique(keys, SortedKeys(m.Keys));
    var body := "";
    var i := 0;
    while i < |keys|
      invariant 0 <= i <= |keys|
      invariant body == Members(quote, keys[..i], m)
    {
      MembersNext(quote, keys, m, i);
      var member := quote(keys[i]) + ":" + m[keys[i]];
      body := if i > 0 then body + "," + member else member;
      i := i + 1;
    }
    assert keys[..|keys|] == keys;
    buf := "{" + body + "}";
  }

  // ---------------------------------------------------------------------------
  // Two objects with the same keys and the same text have the same values
  // ---------------------------------------------------------------------------

  /**
   JSON scalars end where a comma or brace follows them: of two scalars followed by
   such text, neither can be cut short.
   */
  ghost predicate SelfDelimiting(scalars: iset<string>) {
    forall v, w, x, y ::
      v in scalars && w in scalars && (x == "" || x[0] == ',') && (y == "" || y[0] == ',') && v + x == w + y
      ==> v == w
  }

  /** The members again, unrolled from the front. */
  ghost function MembersFrom(quote: string -> string, keys: seq<string>, m: map<string, string>): string
    requires forall k :: k in keys ==> k in m
  {
    if keys == [] then ""
    else
      quote(keys[0]) + ":" + (m[keys[0]] +
        (if |keys| == 1 then "" else "," + MembersFrom(quote, keys[1..], m)))
  }

  /** Where the first and the last member are not the same, each can be split off first. */
  lemma MiddleMember(quote: string -> string, keys: seq<string>, m: map<string, string>)
    requires |keys| > 2 && forall k :: k in keys ==> k in m
    requires var init := keys[..|keys| - 1];
             && Members(quote, init, m) == MembersFrom(quote, init, m)
             && Members(quote, init[1..], m) == MembersFrom(quote, init[1..], m)
             && Members(quote, keys[1..], m) == MembersFrom(quote, keys[1..], m)
    ensures Members(quote, keys, m) == MembersFrom(quote, keys, m)
  {
    var init, rest := keys[..|keys| - 1], keys[1..];
    assert rest[..|rest| - 1] == init[1..];
    var head, last := quote(keys[0]) + ":", quote(keys[|keys| - 1]) + ":" + m[keys[|keys| - 1]];
    assert Members(quote, keys, m) == Members(quote, init, m) + "," + last;
    assert Members(quote, rest, m) == Members(quote, init[1..], m) + "," + last;
    assert MembersFrom(quote, init, m) == head + (m[keys[0]] + ("," + MembersFrom(quote, init[1..], m)));
    assert MembersFrom(quote, keys, m) == head + (m[keys[0]] + ("," + MembersFrom(quote, rest, m)));
    hide Members, MembersFrom;
    Regroup(head, m[keys[0]], Members(quote, init[1..], m), last);
  }

  lemma Regroup(head: string, value: string, middle: string, last: string)
    ensures head + (value + ("," + middle)) + "," + last == head + (value + ("," + (middle + "," + last)))
  {}

  lemma {:induction false} MembersFromFront(quote: string -> string, keys: seq<string>, m: map<string, string>)
    requires forall k :: k in keys ==> k in m
    ensures Members(quote, keys, m) == MembersFrom(quote, keys, m)
  {
    if |keys| > 1 {
      var init := keys[..|keys| - 1];
      MembersFromFront(quote, init, m);
      MembersFromFront(quote, keys[1..], m);
      if |keys| == 2 {
        assert keys[1..][..0] == [];
        assert init == [keys[0]];
      } else {
        assert keys[1..][..|keys| - 2] == init[1..];
        MembersFromFront(quote, init[1..], m);
        MiddleMember(quote, keys, m);
      }
    }
  }

  lemma {:induction false} MembersDetermineValues(quote: string -> string, keys: seq<string>,
                                                  m: map<string, string>, n: map<string, string>, scalars: iset<string>)
    requires SelfDelimiting(scalars)
    requires forall k :: k in keys ==> k in m && k in n && m[k] in scalars && n[k] in scalars
    requires MembersFrom(quote, keys, m) == MembersFrom(quote, keys, n)
    ensures forall k :: k in keys ==> m[k] == n[k]
  {
    if keys == [] {
      return;
    }
    var head := quote(keys[0]) + ":";
    var x := if |keys| == 1 then "" else "," + MembersFrom(quote, keys[1..], m);
    var y := if |keys| == 1 then "" else "," + MembersFrom(quote, keys[1..], n);
    assert (head + (m[keys[0]] + x))[|head|..] == m[keys[0]] + x;
    assert (head + (n[keys[0]] + y))[|head|..] == n[keys[0]] + y;
    assert m[keys[0]] + x == n[keys[0]] + y;
    assert m[keys[0]] == n[keys[0]];
    assert x == (m[keys[0]] + x)[|m[keys[0]]|..] == y;
    if |keys| > 1 {
      assert x[1..] == MembersFrom(quote, keys[1..], m);
      assert y[1..] == MembersFrom(quote, keys[1..], n);
      MembersDetermineValues(quote, keys[1..], m, n, scalars);
    }
    assert keys == [keys[0]] + keys[1..];
  }

  /** The canonical text loses nothing: objects over the same keys with the same text are equal. */
  lemma CanonicalInjective(quote: string -> string, m: map<string, string>, n: map<string, string>,
                           scalars: iset<string>)
    requires SelfDelimiting(scalars)
    requires m.Keys == n.Keys
    requires forall k :: k in m ==> m[k] in scalars && n[k] in scalars
    requires Canonical(quote, m) == Canonical(quote, n)
    ensures m == n
  {
    var keys := SortedKeys(m.Keys);
    var a, b := Members(quote, keys, m), Members(quote, keys, n);
    assert ("{" + a + "}")[1..|a| + 1] == a;
    assert ("{" + b + "}")[1..|b| + 1] == b;
    MembersFromFront(quote, keys, m);
    MembersFromFront(quote, keys, n);
    MembersDetermineValues(quote, keys, m, n, scalars);
  }
}
