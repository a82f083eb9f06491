/** `directKey` on raw id strings, for any injective digest. */
module DirectKey {
  import opened Domain

  /** Go's byte-wise string order. */
  predicate Less(a: string, b: string) {
    if b == [] then false
    else if a == [] then true
    else if a[0] != b[0] then a[0] < b[0]
    else Less(a[1..], b[1..])
  }

  function Joined(a: string, b: string): string {
    if Less(b, a) then b + "|" + a else a + "|" + b
  }

  /** An empty id is refused. */
  function Key(digest: string -> string, a: string, b: string): Option<string> {
    if a == "" || b == "" then None else Some(digest(Joined(a, b)))
  }

  lemma {:induction false} LessTotal(a: string, b: string)
    ensures a == b ==> !Less(a, b)
    ensures a != b ==> (Less(a, b) <==> !Less(b, a))
    decreases |a|
  {
    if a != [] && b != [] && a[0] == b[0] {
      LessTotal(a[1..], b[1..]);
      assert a == [a[0]] + a[1..] && b == [b[0]] + b[1..];
    }
  }

  lemma JoinInjective(a: string, b: string, c: string, d: string)
    requires '|' !in a && '|' !in c && a + "|" + b == c + "|" + d
    ensures a == c && b == d
  {
    var s, t := a + "|" + b, c + "|" + d;
    assert s[|a|] == '|' && t[|c|] == '|';
    assert forall i :: 0 <= i < |a| ==> s[i] == a[i];
    assert forall i :: 0 <= i < |c| ==> t[i] == c[i];
    assert |a| == |c|;
    assert s[..|a|] == a && t[..|c|] == c && s[|a| + 1..] == b && t[|c| + 1..] == d;
  }

  /** Two calls share a key exactly when they name the same unordered pair of id strings. Two
      spellings of one UUID are different strings and so never share a key. */
  lemma KeyIdentifiesPair(digest: string -> string, a: string, b: string, c: string, d: string)
    requires forall x, y :: digest(x) == digest(y) ==> x == y
    requires a != "" && b != "" && c != "" && d != ""
    requires '|' !in a && '|' !in b && '|' !in c && '|' !in d
    ensures Key(digest, a, b) == Key(digest, c, d) <==> (a == c && b == d) || (a == d && b == c)
  {
    LessTotal(a, b);
    LessTotal(c, d);
    if Key(digest, a, b) == Key(digest, c, d) {
      assert Joined(a, b) == Joined(c, d);
      var (p, q) := if Less(b, a) then (b, a) else (a, b);
      var (r, s) := if Less(d, c) then (d, c) else (c, d);
      JoinInjective(p, q, r, s);
    }
  }
}
