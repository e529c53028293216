/** Python's notion of white space. */
module PythonText {
  predicate IsSpace(c: char) {
    var n := c as int;
    || 0x9 <= n <= 0xD || 0x1C <= n <= 0x20 || n == 0x85 || n == 0xA0 || n == 0x1680 || 0x2000 <= n <= 0x200A
    || n == 0x2028 || n == 0x2029 || n == 0x202F || n == 0x205F || n == 0x3000
  }

  function Strip(text: string): (r: string)
    ensures r != [] ==> !IsSpace(r[0]) && !IsSpace(r[|r| - 1])
  {
    if text == [] then []
    else if IsSpace(text[0]) then Strip(text[1..])
    else if IsSpace(text[|text| - 1]) then Strip(text[..|text| - 1])
    else text
  }

  /** Outside positions `i` up to `j` the text is white space, and what is inside neither begins nor ends so. */
  predicate Trims(text: string, i: nat, j: nat) {
    && i <= j <= |text|
    && (forall k | 0 <= k < |text| && !(i <= k < j) :: IsSpace(text[k]))
    && (i < j ==> !IsSpace(text[i]) && !IsSpace(text[j - 1]))
  }

  lemma {:induction false} StripTrims(text: string) returns (i: nat, j: nat)
    ensures Trims(text, i, j) && Strip(text) == text[i..j]
  {
    hide IsSpace;
    if text == [] {
      i, j := 0, 0;
    } else if IsSpace(text[0]) {
      var a, b := StripTrims(text[1..]);
      i, j := a + 1, b + 1;
      assert text[1..][a..b] == text[i..j];
      forall k | 0 <= k < |text| && !(i <= k < j)
        ensures IsSpace(text[k])
      {
        assert k > 0 ==> text[1..][k - 1] == text[k];
      }
    } else if IsSpace(text[|text| - 1]) {
      i, j := StripTrims(text[..|text| - 1]);
      assert text[..|text| - 1][i..j] == text[i..j];
      forall k | 0 <= k < |text| && !(i <= k < j)
        ensures IsSpace(text[k])
      {
        assert k < |text| - 1 ==> text[..|text| - 1][k] == text[k];
      }
    } else {
      i, j := 0, |text|;
    }
  }

  lemma TrimsOnce(text: string, i: nat, j: nat, a: nat, b: nat)
    requires Trims(text, i, j) && Trims(text, a, b)
    ensures text[i..j] == text[a..b]
  {
    hide IsSpace;
    if i < j {
      assert a <= i < b && a <= j - 1 < b;
      assert i <= a < j && i <= b - 1 < j;
    }
  }

  /** Stripping leaves exactly what lies between the leading and the trailing white space. */
  lemma StripExactly(text: string, r: string)
    ensures Strip(text) == r <==> exists i: nat, j: nat :: Trims(text, i, j) && r == text[i..j]
  {
    hide IsSpace;
    var i, j := StripTrims(text);
    if a: nat, b: nat :| Trims(text, a, b) && r == text[a..b] {
      TrimsOnce(text, i, j, a, b);
    }
  }
}
