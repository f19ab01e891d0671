/** The few string operations the modelled code relies on. */
module Text {
  /** White space within ASCII: tab to carriage return, and the space. */
  predicate IsSpace(c: char) {
    '\t' <= c <= '\r' || c == ' '
  }

  predicate Trimmed(s: string) {
    s == "" || (!IsSpace(s[0]) && !IsSpace(s[|s| - 1]))
  }

  function Trim(s: string): (r: string)
    ensures Trimmed(r)
    ensures Trimmed(s) ==> r == s
  {
    if s == "" then ""
    else if IsSpace(s[0]) then Trim(s[1..])
    else if IsSpace(s[|s| - 1]) then Trim(s[..|s| - 1])
    else s
  }

  predicate Blank(s: string) {
    forall i | 0 <= i < |s| :: IsSpace(s[i])
  }

  lemma {:induction false} BlankTogether(a: string, b: string)
    requires Blank(a) && Blank(b)
    ensures Blank(a + b)
  {
  }

  lemma {:induction false} NothingIsBlank()
    ensures Blank("")
  {
  }

  lemma {:induction false} OneBlank(c: char)
    requires IsSpace(c)
    ensures Blank([c])
  {
  }

  /** Trimming takes white space off both ends and nothing else. */
  lemma {:induction false} TrimIsTheMiddle(s: string) returns (front: string, back: string)
    ensures s == front + Trim(s) + back && Blank(front) && Blank(back)
  {
    hide IsSpace, Blank;
    NothingIsBlank();
    front, back := "", "";
    if s != "" && IsSpace(s[0]) {
      var inner;
      inner, back := TrimIsTheMiddle(s[1..]);
      front := [s[0]] + inner;
      OneBlank(s[0]);
      BlankTogether([s[0]], inner);
      assert [s[0]] + (inner + Trim(s[1..]) + back) == front + Trim(s) + back;
      assert s == [s[0]] + s[1..];
    } else if s != "" && IsSpace(s[|s| - 1]) {
      var n := |s| - 1;
      var inner;
      front, inner := TrimIsTheMiddle(s[..n]);
      back := inner + [s[n]];
      OneBlank(s[n]);
      BlankTogether(inner, [s[n]]);
      assert (front + Trim(s[..n]) + inner) + [s[n]] == front + Trim(s) + back;
      assert s == s[..n] + [s[n]];
    } else {
      assert "" + Trim(s) + "" == s;
    }
  }

  /** White space is the space and the five control characters from tab to carriage return. */
  lemma {:induction false} SpacesAre(c: char)
    ensures IsSpace(c) <==> c == ' ' || c == '\t' || c == '\n' || c as int == 11 || c as int == 12 || c == '\r'
  {
  }
}
