/** Clean-up of the thermal MSID list column: `[v.strip() for v in values
    if 'None' not in v]`. */
module MsidList {

  /** Python's `str.isspace` characters, which `str.strip()` removes. */
  predicate IsSpace(c: char) {
    || c == '\t' || c == '\n' || c == '\U{000B}' || c == '\U{000C}' || c == '\r'
    || ('\U{001C}' <= c <= '\U{001F}') || c == ' ' || c == '\U{0085}' || c == '\U{00A0}'
    || c == '\U{1680}' || ('\U{2000}' <= c <= '\U{200A}') || c == '\U{2028}' || c == '\U{2029}'
    || c == '\U{202F}' || c == '\U{205F}' || c == '\U{3000}'
  }

  /** Number of leading whitespace characters. */
  function LeadingSpaces(s: string): (n: nat)
    ensures n <= |s|
    ensures forall k :: 0 <= k < n ==> IsSpace(s[k])
    ensures n < |s| ==> !IsSpace(s[n])
    decreases |s|
  {
    if |s| > 0 && IsSpace(s[0]) then 1 + LeadingSpaces(s[1..]) else 0
  }

  /** Number of trailing whitespace characters. */
  function TrailingSpaces(s: string): (n: nat)
    ensures n <= |s|
    ensures forall k :: |s| - n <= k < |s| ==> IsSpace(s[k])
    ensures n < |s| ==> !IsSpace(s[|s| - n - 1])
    decreases |s|
  {
    if |s| > 0 && IsSpace(s[|s| - 1]) then 1 + TrailingSpaces(s[..|s| - 1]) else 0
  }

  /** `s.strip()`: the infix of `s` left after removing leading and trailing
      whitespace; it neither starts nor ends with whitespace. */
  function Strip(s: string): (r: string)
    ensures r == [] || (!IsSpace(r[0]) && !IsSpace(r[|r| - 1]))
    ensures LeadingSpaces(s) + |r| <= |s| && s[LeadingSpaces(s)..LeadingSpaces(s) + |r|] == r
    ensures forall k :: 0 <= k < LeadingSpaces(s) ==> IsSpace(s[k])
    ensures forall k :: LeadingSpaces(s) + |r| <= k < |s| ==> IsSpace(s[k])
  {
    var n := LeadingSpaces(s);
    var rest := s[n..];
    var m := TrailingSpaces(rest);
    assert s[n..n + (|rest| - m)] == rest[..|rest| - m];
    rest[..|rest| - m]
  }

  /** Stripping twice is stripping once. */
  lemma StripIdempotent(s: string)
    ensures Strip(Strip(s)) == Strip(s)
  {
    var r := Strip(s);
    if r != [] {
      assert LeadingSpaces(r) == 0;
      assert TrailingSpaces(r) == 0;
    }
  }

  /** Python's `pat in s`: `pat` occurs in `s` as a contiguous substring. */
  predicate Contains(s: string, pat: string)
    decreases |s|
  {
    (|pat| <= |s| && s[..|pat|] == pat) || (|s| > 0 && Contains(s[1..], pat))
  }

  /** A substring found in an infix is found in the whole string. */
  lemma {:induction false} ContainsInInfix(s: string, i: nat, j: nat, pat: string)
    requires i <= j <= |s| && Contains(s[i..j], pat)
    ensures Contains(s, pat)
    decreases j - i
  {
    var t := s[i..j];
    if |pat| <= |t| && t[..|pat|] == pat {
      ContainsPrefixAt(s, i, pat);
    } else {
      assert t[1..] == s[i + 1..j];
      ContainsInInfix(s, i + 1, j, pat);
    }
  }

  lemma {:induction false} ContainsPrefixAt(s: string, i: nat, pat: string)
    requires i + |pat| <= |s| && s[i..i + |pat|] == pat
    ensures Contains(s, pat)
    decreases i
  {
    if i > 0 {
      assert s[1..][i - 1..i - 1 + |pat|] == s[i..i + |pat|];
      ContainsPrefixAt(s[1..], i - 1, pat);
    }
  }

  /** Stripping never creates a "None" the unstripped value lacked. */
  lemma StripKeepsNoneFree(s: string)
    requires !Contains(s, "None")
    ensures !Contains(Strip(s), "None")
  {
    var r := Strip(s);
    var i := LeadingSpaces(s);
    if Contains(r, "None") {
      ContainsInInfix(s, i, i + |r|, "None");
    }
  }

  /** The `msids` list built from the MSID column: entries containing "None"
      are dropped, the rest are stripped, in column order. */
  function CleanMsidList(column: seq<string>): (msids: seq<string>)
    ensures |msids| <= |column|
    ensures forall v :: v in column && !Contains(v, "None") ==> Strip(v) in msids
    ensures forall x :: x in msids ==> exists v :: v in column && !Contains(v, "None") && x == Strip(v)
    decreases |column|
  {
    if |column| == 0 then []
    else (if Contains(column[0], "None") then [] else [Strip(column[0])]) + CleanMsidList(column[1..])
  }

  /** One column entry contributes its stripped form, or nothing when it contains "None". */
  lemma CleanMsidListOfOne(v: string)
    ensures CleanMsidList([v]) == if Contains(v, "None") then [] else [Strip(v)]
  {
    assert [v][1..] == [];
  }

  /** The list is built entry by entry in column order: cleaning a
      concatenation concatenates the cleaned parts, so order and duplicates
      are kept. */
  lemma {:induction false} CleanMsidListAppend(a: seq<string>, b: seq<string>)
    ensures CleanMsidList(a + b) == CleanMsidList(a) + CleanMsidList(b)
    decreases |a|
  {
    if |a| == 0 {
      assert a + b == b;
    } else {
      var head := if Contains(a[0], "None") then [] else [Strip(a[0])];
      assert (a + b)[0] == a[0] && (a + b)[1..] == a[1..] + b;
      CleanMsidListAppend(a[1..], b);
      calc {
        CleanMsidList(a + b);
        head + CleanMsidList(a[1..] + b);
        head + (CleanMsidList(a[1..]) + CleanMsidList(b));
        (head + CleanMsidList(a[1..])) + CleanMsidList(b);
        CleanMsidList(a) + CleanMsidList(b);
      }
    }
  }

  /** Every cleaned MSID is free of surrounding whitespace and of "None". */
  lemma CleanMsidsAreStrippedAndNoneFree(column: seq<string>)
    ensures forall x :: x in CleanMsidList(column) ==>
      !Contains(x, "None") && Strip(x) == x && (x == [] || (!IsSpace(x[0]) && !IsSpace(x[|x| - 1])))
  {
    forall x | x in CleanMsidList(column)
      ensures !Contains(x, "None") && Strip(x) == x
    {
      var v :| v in column && !Contains(v, "None") && x == Strip(v);
      StripKeepsNoneFree(v);
      StripIdempotent(v);
    }
  }
}
