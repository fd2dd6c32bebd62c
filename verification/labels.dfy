/** The type label of an element in object-name mode: the object's name
    with a trailing ".<digits>" suffix removed, as the host appends such a
    suffix to make duplicate names unique.

    The exporter finds the suffix with the regular expression `\.[0-9]+$`.
    In that expression `$` matches at the end of the name and also just
    before a final newline, so a name ending in ".<digits>" followed by one
    newline loses both the suffix and the newline; the model keeps that. */
module Labels {

  predicate IsDigit(c: char) {
    '0' <= c <= '9'
  }

  predicate AllDigits(s: string) {
    forall i :: 0 <= i < |s| ==> IsDigit(s[i])
  }

  /** The length of the run of digits that ends `s`. */
  function TrailingDigits(s: string): (n: nat)
    ensures n <= |s|
    ensures forall i :: |s| - n <= i < |s| ==> IsDigit(s[i])
    ensures n < |s| ==> !IsDigit(s[|s| - 1 - n])
    decreases |s|
  {
    if s == [] || !IsDigit(s[|s| - 1]) then 0
    else TrailingDigits(s[..|s| - 1]) + 1
  }

  /** The name without its numeric suffix. */
  function StripNumericSuffix(name: string): (r: string)
    ensures r <= name
  {
    var body := Body(name);
    var d := TrailingDigits(body);
    if 0 < d < |body| && body[|body| - 1 - d] == '.' then name[..|body| - 1 - d] else name
  }

  /** Reference semantics of the search for `\.[0-9]+$`: it matches at
      position `p` when a dot stands there, followed by one or more digits
      that run to the end of the name or to a final newline. */
  predicate SuffixMatchesAt(name: string, p: nat) {
    && p < |name|
    && name[p] == '.'
    && ((p + 1 < |name| && AllDigits(name[p + 1..]))
        || (p + 1 < |name| - 1 && name[|name| - 1] == '\n' && AllDigits(name[p + 1..|name| - 1])))
  }

  /** The part of the name the pattern must end in: the name without a
      final newline. */
  function Body(name: string): (b: string)
    ensures b <= name && |name| - 1 <= |b|
  {
    if |name| > 0 && name[|name| - 1] == '\n' then name[..|name| - 1] else name
  }

  /** Where the pattern can match: only at the dot just before the trailing
      run of digits of the body. */
  lemma MatchPosition(name: string, p: nat)
    requires SuffixMatchesAt(name, p)
    ensures var body := Body(name); var d := TrailingDigits(body);
      0 < d < |body| && p == |body| - 1 - d && body[p] == '.'
  {
    var body := Body(name);
    if |name| > 0 && name[|name| - 1] == '\n' {
      assert !IsDigit(name[|name| - 1]);
      assert body[p + 1..] == name[p + 1..|name| - 1];
    } else {
      assert body[p + 1..] == name[p + 1..];
    }
    assert body[p] == name[p];
    DigitRunEnds(body, p, TrailingDigits(body));
  }

  /** When stripping cuts the name, the pattern matches where it cuts. */
  lemma MatchAtCut(name: string)
    requires var body := Body(name); var d := TrailingDigits(body);
      0 < d < |body| && body[|body| - 1 - d] == '.'
    ensures SuffixMatchesAt(name, |Body(name)| - 1 - TrailingDigits(Body(name)))
  {
    var body := Body(name);
    var d := TrailingDigits(body);
    var p := |body| - 1 - d;
    assert name[p] == body[p];
    if |name| > 0 && name[|name| - 1] == '\n' {
      assert name[p + 1..|name| - 1] == body[p + 1..];
    } else {
      assert name[p + 1..] == body[p + 1..];
    }
  }

  /** Stripping agrees with the regular-expression search: the name is left
      alone exactly when the pattern matches nowhere, and otherwise it is cut
      at the leftmost (here: only) match. */
  lemma StripAgreesWithSearch(name: string)
    ensures (forall p :: 0 <= p < |name| ==> !SuffixMatchesAt(name, p)) <==> StripNumericSuffix(name) == name
    ensures StripNumericSuffix(name) != name ==>
      SuffixMatchesAt(name, |StripNumericSuffix(name)|)
      && forall p :: 0 <= p < |name| && SuffixMatchesAt(name, p) ==> p == |StripNumericSuffix(name)|
  {
    var body := Body(name);
    var d := TrailingDigits(body);
    var r := StripNumericSuffix(name);
    forall p | 0 <= p < |name| && SuffixMatchesAt(name, p)
      ensures 0 < d < |body| && p == |body| - 1 - d && body[p] == '.'
    {
      MatchPosition(name, p);
    }
    if 0 < d < |body| && body[|body| - 1 - d] == '.' {
      MatchAtCut(name);
      assert |r| == |body| - 1 - d < |name|;
    } else {
      assert r == name;
    }
  }

  /** A dot followed by digits up to the end of `s` sits just before the
      whole trailing run of digits. */
  lemma DigitRunEnds(s: string, p: nat, d: nat)
    requires p < |s| && s[p] == '.' && p + 1 < |s| && AllDigits(s[p + 1..])
    requires d == TrailingDigits(s)
    ensures 0 < d < |s| && p == |s| - 1 - d
  {
    assert !IsDigit(s[p]);
    forall i | p < i < |s| ensures IsDigit(s[i]) {
      assert s[p + 1..][i - (p + 1)] == s[i];
    }
  }

  /** Removing what the host appends to make a name unique gives the name
      back: "<base>.<digits>" becomes "<base>". */
  lemma {:induction false} StripUndoesSuffix(base: string, digits: string)
    requires |digits| > 0 && AllDigits(digits)
    ensures StripNumericSuffix(base + "." + digits) == base
  {
    var name := base + "." + digits;
    var d := TrailingDigits(name);
    assert name[|base|] == '.';
    assert name[|base| + 1..] == digits;
    DigitRunEnds(name, |base|, d);
    assert name[..|base|] == base;
  }

  /** With a final newline, the newline goes too. */
  lemma StripUndoesSuffixBeforeNewline(base: string, digits: string)
    requires |digits| > 0 && AllDigits(digits)
    ensures StripNumericSuffix(base + "." + digits + "\n") == base
  {
    var name := base + "." + digits + "\n";
    assert name[..|name| - 1] == base + "." + digits;
    StripUndoesSuffix(base, digits);
  }

  /** A name that does not end in a dot and digits keeps its name. */
  lemma StripKeepsPlainName(name: string)
    requires |name| == 0 || name[|name| - 1] != '\n'
    requires forall p :: 0 <= p < |name| - 1 && name[p] == '.' ==> !AllDigits(name[p + 1..])
    ensures StripNumericSuffix(name) == name
  {
    StripAgreesWithSearch(name);
  }

  lemma StripExamples()
    ensures StripNumericSuffix("Wall.003") == "Wall"
    ensures StripNumericSuffix("Wall.001.002") == "Wall.001"
    ensures StripNumericSuffix("Wall") == "Wall"
    ensures StripNumericSuffix("Wall.") == "Wall."
  {
    SuffixExamples();
    PlainExamples();
  }

  lemma SuffixExamples()
    ensures StripNumericSuffix("Wall.003") == "Wall"
    ensures StripNumericSuffix("Wall.001.002") == "Wall.001"
  {
    assert "Wall" + "." + "003" == "Wall.003";
    SuffixExample("Wall", "003", "Wall.003");
    assert "Wall.001" + "." + "002" == "Wall.001.002";
    SuffixExample("Wall.001", "002", "Wall.001.002");
  }

  lemma SuffixExample(base: string, digits: string, name: string)
    requires |digits| > 0 && AllDigits(digits)
    requires name == base + "." + digits
    ensures StripNumericSuffix(name) == base
  {
    StripUndoesSuffix(base, digits);
  }

  lemma PlainExamples()
    ensures StripNumericSuffix("Wall") == "Wall"
    ensures StripNumericSuffix("Wall.") == "Wall."
  {
    StripKeepsPlainName("Wall");
    StripKeepsPlainName("Wall.");
  }
}
