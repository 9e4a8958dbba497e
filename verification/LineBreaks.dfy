/** The first line break of a text. */
module LineBreaks {

  /** The position of the first line break, or the length of the text. */
  function Break(text: string): (i: nat)
    ensures i <= |text|
  {
    if text == [] || text[0] == '\n' then 0 else 1 + Break(text[1..])
  }

  /** It is a line break, and there is none before it. */
  lemma {:induction false} BreakIsFirst(text: string)
    ensures var i := Break(text); '\n' !in text[..i] && (i < |text| ==> text[i] == '\n')
  {
    if text != [] && text[0] != '\n' {
      BreakIsFirst(text[1..]);
      var i := Break(text);
      assert text[..i] == [text[0]] + text[1..][..i - 1];
    }
  }

  lemma {:induction false} BreakIs(text: string, k: nat)
    requires k <= |text| && '\n' !in text[..k] && (k < |text| ==> text[k] == '\n')
    ensures Break(text) == k
  {
    if k > 0 {
      assert text[..k][0] == text[0];
      assert text[..k][1..] == text[1..][..k - 1];
      BreakIs(text[1..], k - 1);
    }
  }

  lemma BreakAppend(a: string, b: string)
    ensures Break(a) < |a| ==> Break(a + b) == Break(a)
    ensures Break(a) == |a| ==> Break(a + b) == |a| + Break(b)
  {
    var i := Break(a);
    BreakIsFirst(a);
    BreakIsFirst(b);
    if i < |a| {
      assert (a + b)[..i] == a[..i];
      BreakIs(a + b, i);
    } else {
      assert (a + b)[..|a| + Break(b)] == a + b[..Break(b)];
      assert a[..i] == a;
      BreakIs(a + b, |a| + Break(b));
    }
  }
}
