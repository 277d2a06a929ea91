/** Strings as the SQL builders see them: substring search, joined lists, whitespace. */
module Text {
  import opened Wrappers

  /** `t` occurs in `s` starting at index `i`. */
  predicate OccursAt(s: string, t: string, i: int)
  {
    0 <= i && i + |t| <= |s| && s[i..i + |t|] == t
  }

  /** `s.IndexOf(t) != -1`, with an ordinal comparison. */
  predicate Contains(s: string, t: string)
  {
    exists i | 0 <= i <= |s| - |t| :: OccursAt(s, t, i)
  }

  lemma ContainsSelf(t: string)
    ensures Contains(t, t)
  {
    assert OccursAt(t, t, 0);
  }

  /** What occurs in a part of a concatenation occurs in the whole. */
  lemma ContainsInConcat(a: string, b: string, t: string)
    ensures Contains(a, t) ==> Contains(a + b, t)
    ensures Contains(b, t) ==> Contains(a + b, t)
  {
    if Contains(a, t) {
      var i :| 0 <= i <= |a| - |t| && OccursAt(a, t, i);
      assert (a + b)[i..i + |t|] == a[i..i + |t|];
      assert OccursAt(a + b, t, i);
    }
    if Contains(b, t) {
      var i :| 0 <= i <= |b| - |t| && OccursAt(b, t, i);
      assert (a + b)[|a| + i..|a| + i + |t|] == b[i..i + |t|];
      assert OccursAt(a + b, t, |a| + i);
    }
  }

  lemma ContainsTransitive(a: string, b: string, c: string)
    requires Contains(a, b) && Contains(b, c)
    ensures Contains(a, c)
  {
    var i :| 0 <= i <= |a| - |b| && OccursAt(a, b, i);
    var j :| 0 <= j <= |b| - |c| && OccursAt(b, c, j);
    assert b == a[i..i + |b|];
    forall m | 0 <= m < |c|
      ensures a[i + j..i + j + |c|][m] == c[m]
    {
      assert c[m] == b[j + m] == a[i + j + m];
    }
    assert OccursAt(a, c, i + j);
  }

  /** A one-character needle is found exactly when the character is in the string. */
  lemma ContainsChar(s: string, c: char)
    ensures Contains(s, [c]) <==> c in s
  {
    if c in s {
      var i :| 0 <= i < |s| && s[i] == c;
      assert s[i..i + 1] == [c];
      assert OccursAt(s, [c], i);
    }
    if Contains(s, [c]) {
      var i :| 0 <= i <= |s| - 1 && OccursAt(s, [c], i);
      assert s[i] == s[i..i + 1][0];
    }
  }

  /** The items joined with `sep` between neighbours; "" for no items. */
  function Join(items: seq<string>, sep: string): string
    decreases |items|
  {
    if |items| == 0 then ""
    else if |items| == 1 then items[0]
    else Join(items[..|items| - 1], sep) + sep + items[|items| - 1]
  }

  /** Every item can be found in the joined list. */
  lemma {:induction false} JoinContainsItem(items: seq<string>, sep: string, k: nat)
    requires k < |items|
    ensures Contains(Join(items, sep), items[k])
  {
    if |items| == 1 {
      ContainsSelf(items[0]);
    } else {
      var init := items[..|items| - 1];
      var last := items[|items| - 1];
      if k < |items| - 1 {
        JoinContainsItem(init, sep, k);
        assert init[k] == items[k];
        ContainsInConcat(Join(init, sep), sep + last, items[k]);
        assert Join(init, sep) + (sep + last) == Join(items, sep);
      } else {
        ContainsSelf(last);
        ContainsInConcat(Join(init, sep) + sep, last, last);
      }
    }
  }

  /** The index of the last ',' in `s`, or -1. */
  function LastComma(s: string): (k: int)
    ensures -1 <= k < |s|
    ensures k >= 0 ==> s[k] == ','
    ensures forall j | k < j < |s| :: s[j] != ','
    decreases |s|
  {
    if |s| == 0 then -1
    else if s[|s| - 1] == ',' then |s| - 1
    else LastComma(s[..|s| - 1])
  }

  /** Splits a list written as `a, b, c` back into its items. */
  function SplitList(s: string): (items: seq<string>)
    ensures |items| >= 1
    decreases |s|
  {
    var k := LastComma(s);
    if k < 0 then [s]
    else SplitList(s[..k]) + [s[if k + 2 <= |s| then k + 2 else |s|..]]
  }

  lemma LastCommaOfJoined(a: string, b: string)
    requires ',' !in b
    ensures LastComma(a + ", " + b) == |a|
  {
    var s := a + ", " + b;
    assert s[|a|] == ',';
  }

  /**
   * Joining items that hold no comma with ", " and splitting the text again gives back
   * the same items, in the same order: the list has as many entries as there were items.
   */
  lemma {:induction false} SplitJoin(items: seq<string>)
    requires |items| >= 1
    requires forall i | 0 <= i < |items| :: ',' !in items[i]
    ensures SplitList(Join(items, ", ")) == items
  {
    if |items| == 1 {
    } else {
      var init := items[..|items| - 1];
      var last := items[|items| - 1];
      var a := Join(init, ", ");
      var s := a + ", " + last;
      assert s == Join(items, ", ");
      LastCommaOfJoined(a, last);
      assert s[..|a|] == a;
      assert s[|a| + 2..] == last;
      SplitJoin(init);
      assert init + [last] == items;
    }
  }

  /** `Char.IsWhiteSpace`: the Unicode space separators and the control whitespace. */
  predicate IsWhiteSpace(c: char)
  {
    || c == ' ' || ('\t' <= c <= '\r') || c == '\U{0085}' || c == '\U{00A0}' || c == '\U{1680}'
    || ('\U{2000}' <= c <= '\U{200A}') || c == '\U{2028}' || c == '\U{2029}' || c == '\U{202F}'
    || c == '\U{205F}' || c == '\U{3000}'
  }

  /** `String.IsNullOrWhiteSpace`, with `None` for a null string. */
  function IsNullOrWhiteSpace(s: Option<string>): (b: bool)
    ensures s.None? ==> b
    ensures s.Some? ==> (b <==> forall c | c in s.value :: IsWhiteSpace(c))
  {
    match s
    case None => true
    case Some(t) => forall i | 0 <= i < |t| :: IsWhiteSpace(t[i])
  }

  /** The empty and blank strings count; any other character does not. */
  lemma IsNullOrWhiteSpaceExamples()
    ensures IsNullOrWhiteSpace(Some("")) && IsNullOrWhiteSpace(Some(" \t\r\n"))
    ensures !IsNullOrWhiteSpace(Some(" id = 1 "))
  {
    assert " id = 1 "[1] == 'i';
  }
}
