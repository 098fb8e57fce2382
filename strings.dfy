/** The few pieces of Go's `strings` and `fmt` packages the core relies on,
    written over `seq<char>`. */
module Strings {

  /** strings.HasPrefix(s, prefix). */
  predicate HasPrefix(s: string, prefix: string) {
    |prefix| <= |s| && s[..|prefix|] == prefix
  }

  /** fmt.Sprintf(`"%s"`, s): the text wrapped in double quotes. */
  function Quote(s: string): (r: string)
    ensures |r| == |s| + 2 && r[0] == '"' && r[|r| - 1] == '"' && r[1..|r| - 1] == s
  {
    "\"" + s + "\""
  }

  /** True when neither end of `s` is a double quote. */
  predicate Unquoted(s: string) {
    s == [] || (s[0] != '"' && s[|s| - 1] != '"')
  }

  /** strings.TrimLeft(s, `"`): drops every leading double quote. */
  function TrimLeftQuotes(s: string): (r: string)
    ensures r == [] || r[0] != '"'
    decreases |s|
  {
    if |s| > 0 && s[0] == '"' then TrimLeftQuotes(s[1..]) else s
  }

  /** strings.TrimRight(s, `"`): drops every trailing double quote. */
  function TrimRightQuotes(s: string): (r: string)
    ensures r == [] || r[|r| - 1] != '"'
    ensures HasPrefix(s, r)
    decreases |s|
  {
    if |s| > 0 && s[|s| - 1] == '"' then TrimRightQuotes(s[..|s| - 1]) else s
  }

  /** strings.Trim(s, `"`): drops every leading and every trailing double
      quote (its meaning is stated by lemma TrimQuotesSlice). */
  function TrimQuotes(s: string): (r: string)
    ensures Unquoted(r)
  {
    var l := TrimLeftQuotes(s);
    var r := TrimRightQuotes(l);
    assert r == [] || r[0] == l[0];
    r
  }

  /** What TrimLeft drops is a run of double quotes at the front. */
  lemma {:induction false} TrimLeftDrops(s: string)
    ensures |TrimLeftQuotes(s)| <= |s| && TrimLeftQuotes(s) == s[|s| - |TrimLeftQuotes(s)|..]
    ensures forall k :: 0 <= k < |s| - |TrimLeftQuotes(s)| ==> s[k] == '"'
    decreases |s|
  {
    if |s| > 0 && s[0] == '"' {
      TrimLeftDrops(s[1..]);
    }
  }

  /** What TrimRight drops is a run of double quotes at the back. */
  lemma {:induction false} TrimRightDrops(s: string)
    ensures forall k :: |TrimRightQuotes(s)| <= k < |s| ==> s[k] == '"'
    decreases |s|
  {
    if |s| > 0 && s[|s| - 1] == '"' {
      TrimRightDrops(s[..|s| - 1]);
    }
  }

  /** The trimmed text is a slice of `s` outside which there are only
      double quotes: exactly what Go's strings.Trim with cutset `"` keeps. */
  lemma TrimQuotesSlice(s: string)
    ensures exists i :: TrimmedAt(s, TrimQuotes(s), i)
  {
    var l := TrimLeftQuotes(s);
    var r := TrimRightQuotes(l);
    TrimLeftDrops(s);
    TrimRightDrops(l);
    var i := |s| - |l|;
    assert l == s[i..];
    assert l[..|r|] == r;
    assert s[i..i + |r|] == l[..|r|];
    assert forall k :: i + |r| <= k < |s| ==> s[k] == l[k - i];
    assert r == TrimQuotes(s);
    assert TrimmedAt(s, r, i);
  }

  /** `r` is the slice of `s` starting at `i`, and everything outside it is
      a double quote. */
  predicate TrimmedAt(s: string, r: string, i: int) {
    && 0 <= i <= |s| - |r|
    && r == s[i..i + |r|]
    && (forall k :: 0 <= k < i ==> s[k] == '"')
    && (forall k :: i + |r| <= k < |s| ==> s[k] == '"')
  }

  /** Trimming text that already has no quote at either end is the identity. */
  lemma {:induction false} TrimUnquoted(s: string)
    requires Unquoted(s)
    ensures TrimQuotes(s) == s
  {
  }

  /** Quoting then trimming gives back any text without quotes at its ends:
      the label the core writes as `"<label>"` reads back as `<label>`. */
  lemma {:induction false} QuoteRoundTrip(s: string)
    requires Unquoted(s)
    ensures TrimQuotes(Quote(s)) == s
  {
    var q := Quote(s);
    assert q[1..] == s + "\"";
    if s == [] {
      assert TrimLeftQuotes(q[1..][1..]) == [];
      assert TrimLeftQuotes(q) == [];
    } else {
      assert TrimLeftQuotes(q[1..]) == s + "\"";
      assert TrimLeftQuotes(q) == s + "\"";
      assert (s + "\"")[..|s|] == s;
      assert TrimRightQuotes(s + "\"") == TrimRightQuotes(s);
    }
  }

  /** strings.Split(s, ".")[0]: the text before the first dot, or all of
      `s` when it has no dot. */
  function FirstField(s: string): (r: string)
    ensures HasPrefix(s, r) && '.' !in r
    ensures r == s || s[|r|] == '.'
  {
    if s == [] || s[0] == '.' then [] else [s[0]] + FirstField(s[1..])
  }

  /** len(strings.Split(s, ".")) >= 2: the text contains a dot. */
  predicate HasDot(s: string) {
    '.' in s
  }

  /** The text before the first dot is a proper prefix exactly when there is
      a dot. */
  lemma FirstFieldProper(s: string)
    ensures HasDot(s) <==> |FirstField(s)| < |s|
  {
    var r := FirstField(s);
    if |r| < |s| {
      assert s[|r|] == '.';
    } else {
      assert r == s;
    }
  }
}
