/** The cache key of the memoizing wrapper: `JSON.stringify(args)` of the call's
    argument list. Every argument in this system is an integer (a movie id), so
    the key is the JSON array text "[a0,a1,...]". */
module Key {
  import opened Decimal

  predicate NoComma(s: string) {
    forall i | 0 <= i < |s| :: s[i] != ','
  }

  /** The array elements, separated by commas, without the brackets. */
  function Elements(args: seq<int>): (s: string)
    ensures |s| == 0 <==> |args| == 0
  {
    if |args| == 0 then ""
    else if |args| == 1 then IntToString(args[0])
    else IntToString(args[0]) + "," + Elements(args[1..])
  }

  /** `JSON.stringify` of an array of integers. */
  function Stringify(args: seq<int>): (k: string)
    ensures |k| >= 2 && k[0] == '[' && k[|k| - 1] == ']'
  {
    "[" + Elements(args) + "]"
  }

  /** Position of the first comma, or the length when there is none. */
  function FirstComma(u: string): (i: nat)
    ensures i <= |u|
  {
    if |u| == 0 || u[0] == ',' then 0 else 1 + FirstComma(u[1..])
  }

  lemma {:induction false} FirstCommaAfter(p: string, s: string)
    requires NoComma(p)
    ensures FirstComma(p + "," + s) == |p|
    decreases |p|
  {
    if |p| > 0 {
      assert (p + "," + s)[1..] == p[1..] + "," + s;
      FirstCommaAfter(p[1..], s);
    }
  }

  /** Two comma-free heads followed by a comma can only be split one way. */
  lemma SplitAtFirstComma(p: string, s: string, q: string, t: string)
    requires NoComma(p) && NoComma(q)
    requires p + "," + s == q + "," + t
    ensures p == q && s == t
  {
    var u := p + "," + s;
    FirstCommaAfter(p, s);
    FirstCommaAfter(q, t);
    assert p == u[..|p|] == q;
    assert s == u[|p| + 1..] == t;
  }

  lemma NumberHasNoComma(x: int)
    ensures NoComma(IntToString(x))
  {
    var s := IntToString(x);
    forall i | 0 <= i < |s| ensures s[i] != ',' {
      assert IsDigit(s[i]) || s[i] == '-';
    }
  }

  /** The element text has a comma exactly when there are two elements or more. */
  lemma ElementsComma(args: seq<int>)
    ensures NoComma(Elements(args)) <==> |args| <= 1
  {
    if |args| == 1 {
      NumberHasNoComma(args[0]);
    } else if |args| > 1 {
      assert Elements(args)[|IntToString(args[0])|] == ',';
    }
  }

  lemma {:induction false} ElementsInjective(a: seq<int>, b: seq<int>)
    requires Elements(a) == Elements(b)
    ensures a == b
    decreases |a|
  {
    ElementsComma(a);
    ElementsComma(b);
    if |a| == 1 {
      IntToStringInjective(a[0], b[0]);
    } else if |a| > 1 {
      NumberHasNoComma(a[0]);
      NumberHasNoComma(b[0]);
      SplitAtFirstComma(IntToString(a[0]), Elements(a[1..]), IntToString(b[0]), Elements(b[1..]));
      IntToStringInjective(a[0], b[0]);
      ElementsInjective(a[1..], b[1..]);
      assert a == [a[0]] + a[1..];
      assert b == [b[0]] + b[1..];
    }
  }

  /** Structurally equal argument lists share a key and different lists never do. */
  lemma StringifyInjective(a: seq<int>, b: seq<int>)
    ensures Stringify(a) == Stringify(b) <==> a == b
  {
    if Stringify(a) == Stringify(b) {
      var k := Stringify(a);
      assert Elements(a) == k[1..|k| - 1] == Elements(b);
      ElementsInjective(a, b);
    }
  }
}
