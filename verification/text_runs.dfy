/** Maximal runs of characters drawn from one character class, left to
    right: what `re.findall(r'[class]+', s)` returns. The tokenizer uses it
    with the word characters; whitespace normalisation is characterised
    with it over the non-whitespace characters. */
module TextRuns {

  /** Length of the run of `inRun` characters at the start of `s`. */
  function RunLength(s: string, inRun: char -> bool): (n: nat)
    ensures n <= |s|
    ensures forall i :: 0 <= i < n ==> inRun(s[i])
    ensures n < |s| ==> !inRun(s[n])
  {
    if s == [] || !inRun(s[0]) then 0 else 1 + RunLength(s[1..], inRun)
  }

  /** The maximal runs of `inRun` characters of `s`, in order. */
  function Runs(s: string, inRun: char -> bool): (r: seq<string>)
    ensures forall k :: 0 <= k < |r| ==> r[k] != []
    decreases |s|
  {
    if s == [] then []
    else if !inRun(s[0]) then Runs(s[1..], inRun)
    else
      var n := RunLength(s, inRun);
      [s[..n]] + Runs(s[n..], inRun)
  }

  /** Every run consists of class characters only. */
  lemma {:induction false} RunsInClass(s: string, inRun: char -> bool)
    ensures forall k, i :: 0 <= k < |Runs(s, inRun)| && 0 <= i < |Runs(s, inRun)[k]| ==>
              inRun(Runs(s, inRun)[k][i])
    decreases |s|
  {
    if s != [] {
      if !inRun(s[0]) {
        RunsInClass(s[1..], inRun);
      } else {
        var n := RunLength(s, inRun);
        RunsInClass(s[n..], inRun);
        var rs := Runs(s, inRun);
        assert rs == [s[..n]] + Runs(s[n..], inRun);
        forall k, i | 0 <= k < |rs| && 0 <= i < |rs[k]| ensures inRun(rs[k][i]) {
          if k > 0 {
            assert rs[k] == Runs(s[n..], inRun)[k - 1];
          }
        }
      }
    }
  }

  /** The characters of `s` that belong to the class, in order. */
  function Filter(s: string, inRun: char -> bool): (r: string)
    ensures |r| <= |s|
  {
    if s == [] then [] else (if inRun(s[0]) then [s[0]] else []) + Filter(s[1..], inRun)
  }

  function Flatten(ws: seq<string>): string
  {
    if ws == [] then [] else ws[0] + Flatten(ws[1..])
  }

  /** A character outside the class is skipped. */
  lemma RunsSkip(c: char, x: string, inRun: char -> bool)
    requires !inRun(c)
    ensures Runs([c] + x, inRun) == Runs(x, inRun)
  {
    assert ([c] + x)[1..] == x;
  }

  /** A class character in front of `x` either starts a new run or joins
      the first run of `x`, depending on how `x` begins. */
  lemma RunsCons(c: char, x: string, inRun: char -> bool)
    requires inRun(c)
    ensures x != [] && inRun(x[0]) ==>
              Runs(x, inRun) != [] &&
              Runs([c] + x, inRun) == [[c] + Runs(x, inRun)[0]] + Runs(x, inRun)[1..]
    ensures !(x != [] && inRun(x[0])) ==> Runs([c] + x, inRun) == [[c]] + Runs(x, inRun)
  {
    var s := [c] + x;
    assert s[1..] == x;
    var m := RunLength(x, inRun);
    assert RunLength(s, inRun) == 1 + m;
    assert s[..1 + m] == [c] + x[..m];
    assert s[1 + m..] == x[m..];
  }

  /** A character outside the class separates runs: runs never cross it. */
  lemma {:induction false} RunsSplit(a: string, c: char, b: string, inRun: char -> bool)
    requires !inRun(c)
    ensures Runs(a + [c] + b, inRun) == Runs(a, inRun) + Runs(b, inRun)
    decreases |a|
  {
    if a == [] {
      assert a + [c] + b == [c] + b;
      RunsSkip(c, b, inRun);
    } else {
      var a' := a[1..];
      assert a == [a[0]] + a';
      var x := a' + [c] + b;
      assert a + [c] + b == [a[0]] + x;
      RunsSplit(a', c, b, inRun);
      if !inRun(a[0]) {
        RunsSkip(a[0], x, inRun);
        RunsSkip(a[0], a', inRun);
      } else {
        RunsSplitCons(a[0], a', c, b, inRun);
      }
    }
  }

  lemma RunsSplitCons(h: char, a': string, c: char, b: string, inRun: char -> bool)
    requires inRun(h) && !inRun(c)
    requires Runs(a' + [c] + b, inRun) == Runs(a', inRun) + Runs(b, inRun)
    ensures Runs([h] + (a' + [c] + b), inRun) == Runs([h] + a', inRun) + Runs(b, inRun)
  {
    var x := a' + [c] + b;
    RunsCons(h, x, inRun);
    RunsCons(h, a', inRun);
    if a' != [] && inRun(a'[0]) {
      assert x[0] == a'[0];
      JoinFirst(h, Runs(a', inRun), Runs(b, inRun));
    } else {
      assert x[0] == (if a' != [] then a'[0] else c);
      PrependRun(h, Runs(a', inRun), Runs(b, inRun));
    }
  }

  lemma JoinFirst(h: char, ra: seq<string>, rb: seq<string>)
    requires ra != []
    ensures [[h] + (ra + rb)[0]] + (ra + rb)[1..] == ([[h] + ra[0]] + ra[1..]) + rb
  {
    assert (ra + rb)[1..] == ra[1..] + rb;
  }

  lemma PrependRun(h: char, ra: seq<string>, rb: seq<string>)
    ensures [[h]] + (ra + rb) == ([[h]] + ra) + rb
  {
  }

  /** Trailing characters outside the class do not change the runs. */
  lemma RunsDropLast(a: string, c: char, inRun: char -> bool)
    requires !inRun(c)
    ensures Runs(a + [c], inRun) == Runs(a, inRun)
  {
    RunsSplit(a, c, [], inRun);
    assert a + [c] + [] == a + [c];
  }

  /** A non-empty string of class characters is a single run. */
  lemma {:induction false} RunsOfRun(w: string, inRun: char -> bool)
    requires w != [] && forall i :: 0 <= i < |w| ==> inRun(w[i])
    ensures Runs(w, inRun) == [w]
    decreases |w|
  {
    if |w| > 1 {
      RunsOfRun(w[1..], inRun);
      RunsCons(w[0], w[1..], inRun);
      assert [w[0]] + w[1..] == w;
    } else {
      assert RunLength(w, inRun) == 1;
      assert w[..1] == w && w[1..] == [];
    }
  }

  lemma {:induction false} FilterAppend(a: string, b: string, inRun: char -> bool)
    ensures Filter(a + b, inRun) == Filter(a, inRun) + Filter(b, inRun)
    decreases |a|
  {
    if a != [] {
      FilterAppend(a[1..], b, inRun);
      assert (a + b)[1..] == a[1..] + b;
    } else {
      assert a + b == b;
    }
  }

  lemma {:induction false} FilterOfRun(w: string, inRun: char -> bool)
    requires forall i :: 0 <= i < |w| ==> inRun(w[i])
    ensures Filter(w, inRun) == w
    decreases |w|
  {
    if w != [] {
      FilterOfRun(w[1..], inRun);
    }
  }

  /** The runs together hold exactly the class characters of `s`: nothing
      is lost, nothing is added, the order is kept. */
  lemma {:induction false} FlattenRuns(s: string, inRun: char -> bool)
    ensures Flatten(Runs(s, inRun)) == Filter(s, inRun)
    decreases |s|
  {
    if s != [] {
      if !inRun(s[0]) {
        FlattenRuns(s[1..], inRun);
      } else {
        var n := RunLength(s, inRun);
        FlattenRuns(s[n..], inRun);
        assert s == s[..n] + s[n..];
        FilterAppend(s[..n], s[n..], inRun);
        FilterOfRun(s[..n], inRun);
        var rs := Runs(s, inRun);
        assert rs == [s[..n]] + Runs(s[n..], inRun);
        assert rs[1..] == Runs(s[n..], inRun);
      }
    }
  }
}
