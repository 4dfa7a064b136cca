/**
 * The two string operations the screens apply to every text field:
 * java.lang.String.trim, which strips every character at or below U+0020
 * from both ends, and the emptiness test on its result.
 */
module JavaText {

  /** The characters String.trim removes: everything at or below the space. */
  predicate IsTrimmable(c: char) {
    c <= ' '
  }

  /** `s.trim().isEmpty()`: the field holds nothing but trimmable characters. */
  predicate IsBlank(s: string) {
    s == [] || (IsTrimmable(s[0]) && IsBlank(s[1..]))
  }

  /**
   * String.trim: strip trimmable characters from both ends. Removing them one
   * at a time from either end reaches the same piece as Java's two scans.
   */
  function Trim(s: string): (r: string)
    ensures |r| <= |s|
    ensures r == [] <==> IsBlank(s)
    ensures r == [] || (!IsTrimmable(r[0]) && !IsTrimmable(r[|r| - 1]))
  {
    if s == [] then []
    else if IsTrimmable(s[0]) then Trim(s[1..])
    else if IsTrimmable(s[|s| - 1]) then
      assert s[..|s| - 1][0] == s[0];
      Trim(s[..|s| - 1])
    else s
  }

  /** A blank string is one whose every character is trimmable. */
  lemma {:induction false} BlankIsAllTrimmable(s: string)
    ensures IsBlank(s) <==> forall k :: 0 <= k < |s| ==> IsTrimmable(s[k])
  {
    if s != [] {
      BlankIsAllTrimmable(s[1..]);
      assert forall k :: 1 <= k < |s| ==> s[1..][k - 1] == s[k];
    }
  }

  /**
   * What trim keeps is the piece `s[i..j]` between Java's two scans:
   * everything before `i` and from `j` on is trimmable.
   */
  lemma {:induction false} TrimIsSlice(s: string) returns (i: nat, j: nat)
    ensures i <= j <= |s| && Trim(s) == s[i..j]
    ensures forall k :: 0 <= k < i ==> IsTrimmable(s[k])
    ensures forall k :: j <= k < |s| ==> IsTrimmable(s[k])
  {
    if s == [] {
      i, j := 0, 0;
    } else if IsTrimmable(s[0]) {
      var i', j' := TrimIsSlice(s[1..]);
      i, j := i' + 1, j' + 1;
      assert forall k :: 1 <= k < |s| ==> s[k] == s[1..][k - 1];
    } else if IsTrimmable(s[|s| - 1]) {
      var t := s[..|s| - 1];
      i, j := TrimIsSlice(t);
      assert forall k :: 0 <= k < |t| ==> s[k] == t[k];
    } else {
      i, j := 0, |s|;
    }
  }

  /** Trimming a trimmed string changes nothing. */
  lemma TrimIdempotent(s: string)
    ensures Trim(Trim(s)) == Trim(s)
  {
    var t := Trim(s);
    if t != [] {
      assert !IsTrimmable(t[0]) && !IsTrimmable(t[|t| - 1]);
    }
  }
}
