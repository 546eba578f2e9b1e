/** Dotted module names: the string-prefix tests of the scripts against their segments. */
module DottedNames {

  /** The scripts' test for "this module or one below it". */
  predicate Under(name: string, prefix: string) {
    name == prefix || prefix + "." <= name
  }

  /** The first segment of a name. */
  function Top(name: string): (top: string)
    ensures '.' !in top
  {
    if name == "" || name[0] == '.' then "" else [name[0]] + Top(name[1..])
  }

  /** On a dot-free prefix the test is a comparison of first segments. */
  lemma {:induction false} UnderIsTop(name: string, stem: string)
    requires '.' !in stem
    ensures Under(name, stem) <==> Top(name) == stem
  {
    if name != "" && name[0] != '.' && stem != "" && name[0] == stem[0] {
      assert name == [name[0]] + name[1..] && stem == [stem[0]] + stem[1..];
      assert stem + "." == [stem[0]] + (stem[1..] + ".");
      UnderIsTop(name[1..], stem[1..]);
    }
  }

  /** Non-empty, dot-free segments. */
  predicate Segments(parts: seq<string>) {
    forall k :: 0 <= k < |parts| ==> parts[k] != "" && '.' !in parts[k]
  }

  /** `".".join(parts)` */
  function Dots(parts: seq<string>): string {
    if parts == [] then ""
    else if |parts| == 1 then parts[0]
    else parts[0] + "." + Dots(parts[1..])
  }

  lemma TopOfDots(parts: seq<string>)
    requires parts != [] && Segments(parts)
    ensures Top(Dots(parts)) == parts[0]
  {
    if |parts| > 1 {
      assert parts[0] + "." <= Dots(parts);
    }
    UnderIsTop(Dots(parts), parts[0]);
  }

  lemma {:induction false} DotsConcat(a: seq<string>, b: seq<string>)
    requires a != [] && b != []
    ensures Dots(a + b) == Dots(a) + "." + Dots(b)
    decreases |a|
  {
    assert (a + b)[1..] == a[1..] + b;
    if |a| > 1 {
      DotsConcat(a[1..], b);
    }
  }

  /** The string-prefix test is prefix of segments. */
  lemma {:induction false} UnderIsSegmentPrefix(b: seq<string>, a: seq<string>)
    requires a != [] && b != [] && Segments(a) && Segments(b)
    ensures Under(Dots(b), Dots(a)) <==> a <= b
    decreases |a|
  {
    TopOfDots(b);
    UnderIsTop(Dots(b), a[0]);
    if |a| > 1 {
      if |b| == 1 {
        OneSegmentHasNothingBelow(b[0], a);
      } else if a[0] == b[0] {
        UnderIsSegmentPrefix(b[1..], a[1..]);
        StripSegment(a[0], Dots(b[1..]), Dots(a[1..]));
        assert a <= b <==> a[1..] <= b[1..];
      } else {
        UnderFirstSegment(Dots(b), a);
      }
    }
  }

  lemma StripSegment(x: string, name: string, prefix: string)
    ensures Under(x + "." + name, x + "." + prefix) <==> Under(name, prefix)
  {
    var n := |x| + 1;
    var long, short := x + "." + name, x + "." + prefix;
    assert long[n..] == name && short[n..] == prefix;
    assert (short + ".")[n..] == prefix + ".";
    if prefix + "." <= name {
      assert short + "." == x + "." + (prefix + ".");
    }
  }

  lemma UnderFirstSegment(name: string, a: seq<string>)
    requires |a| > 1
    ensures Under(name, Dots(a)) ==> Under(name, a[0])
  {
    assert a[0] + "." <= Dots(a);
    assert Dots(a) <= Dots(a) + ".";
  }

  lemma OneSegmentHasNothingBelow(segment: string, a: seq<string>)
    requires |a| > 1 && '.' !in segment
    ensures !Under(segment, Dots(a))
  {
    assert Dots(a)[|a[0]|] == '.';
    assert |segment| > |a[0]| ==> segment[|a[0]|] != '.';
  }

  lemma {:induction false} DotsInjective(a: seq<string>, b: seq<string>)
    requires a != [] && b != [] && Segments(a) && Segments(b)
    ensures Dots(a) == Dots(b) <==> a == b
  {
    UnderIsSegmentPrefix(a, b);
    UnderIsSegmentPrefix(b, a);
  }
}
