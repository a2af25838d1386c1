// The order in which std::map<std::string, ...> enumerates its keys.
module NameOrder {

  /** Lexicographic order of std::string. */
  predicate Less(a: string, b: string)
    decreases |a|
  {
    b != [] && (a == [] || a[0] < b[0] || (a[0] == b[0] && Less(a[1..], b[1..])))
  }

  lemma {:induction false} LessTotal(a: string, b: string)
    ensures Less(a, b) || a == b || Less(b, a)
    ensures !(Less(a, b) && Less(b, a))
    ensures !Less(a, a)
    decreases |a|
  {
    if a != [] && b != [] {
      LessTotal(a[1..], b[1..]);
      LessTotal(a[1..], a[1..]);
      assert a == [a[0]] + a[1..] && b == [b[0]] + b[1..];
    } else if a != [] {
      LessTotal(a[1..], a[1..]);
    }
  }

  lemma {:induction false} LessTransitive(a: string, b: string, c: string)
    requires Less(a, b) && Less(b, c)
    ensures Less(a, c)
    decreases |a|
  {
    if a != [] && a[0] == b[0] && b[0] == c[0] {
      LessTransitive(a[1..], b[1..], c[1..]);
    }
  }

  ghost predicate IsLeast(n: string, names: set<string>) {
    n in names && forall x | x in names && x != n :: Less(n, x)
  }

  lemma {:induction false} LeastExists(names: set<string>)
    requires names != {}
    ensures exists n :: IsLeast(n, names)
    decreases |names|
  {
    var a :| a in names;
    var rest := names - {a};
    if rest == {} {
      assert forall x | x in names :: x == a || x in rest;
      assert IsLeast(a, names);
    } else {
      LeastExists(rest);
      var b :| IsLeast(b, rest);
      LessTotal(a, b);
      var n := if Less(a, b) then a else b;
      forall x | x in names && x != n ensures Less(n, x) {
        if n == a && x != b {
          LessTransitive(a, b, x);
        }
      }
      assert IsLeast(n, names);
    }
  }

  lemma LeastUnique(n: string, m: string, names: set<string>)
    requires IsLeast(n, names) && IsLeast(m, names)
    ensures n == m
  {
    LessTotal(n, m);
  }

  ghost function Least(names: set<string>): (n: string)
    requires names != {}
    ensures IsLeast(n, names)
  {
    LeastExists(names);
    var n :| IsLeast(n, names);
    n
  }

  /** The keys in ascending order. */
  ghost function Ascending(names: set<string>): (s: seq<string>)
    ensures forall n :: n in s <==> n in names
    decreases |names|
  {
    if names == {} then []
    else
      var n := Least(names);
      [n] + Ascending(names - {n})
  }

  /** Picks the least name, as an iterator at `begin()` does. */
  method First(names: set<string>) returns (n: string)
    requires names != {}
    ensures IsLeast(n, names) && n == Least(names)
  {
    LeastExists(names);
    assert exists n :: n in names && forall x | x in names && x != n :: Less(n, x);
    n :| n in names && forall x | x in names && x != n :: Less(n, x);
    LeastUnique(n, Least(names), names);
  }
}
