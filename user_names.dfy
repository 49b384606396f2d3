/** Choosing the user's name: `setUsername` trims its input and ignores a
    name that is empty afterwards; `ensureUniqueName` tries `name`,
    `name_1`, `name_2`, … until one is not in the stored list of taken
    names, and appends it to that list. `localStorage` is the two fields of
    `UserStore`. */
module UserNames {
  import opened Json

  /** The characters `String.prototype.trim` removes: ECMAScript's WhiteSpace
      and LineTerminator code points. */
  predicate IsWhitespace(c: char): (r: bool)
    ensures c as int < 128 ==> (r <==> c in {'\t', '\n', '\U{000B}', '\U{000C}', '\r', ' '})
    ensures r ==> !('0' <= c <= '9' || 'A' <= c <= 'Z' || 'a' <= c <= 'z' || c == '_')
  {
    || c == '\t' || c == '\n' || c == '\U{000B}' || c == '\U{000C}' || c == '\r' || c == ' '
    || c == '\U{00A0}' || c == '\U{1680}' || ('\U{2000}' <= c <= '\U{200A}')
    || c == '\U{2028}' || c == '\U{2029}' || c == '\U{202F}' || c == '\U{205F}'
    || c == '\U{3000}' || c == '\U{FEFF}'
  }

  predicate AllWhitespace(s: string)
  {
    forall i :: 0 <= i < |s| ==> IsWhitespace(s[i])
  }

  /** `s` without its leading whitespace. */
  function TrimStart(s: string): (r: string)
    ensures |r| <= |s| && r == s[|s| - |r|..]
    ensures AllWhitespace(s[..|s| - |r|])
    ensures r != [] ==> !IsWhitespace(r[0])
    decreases |s|
  {
    if s != [] && IsWhitespace(s[0]) then
      var r := TrimStart(s[1..]);
      var k := |s| - |r|;
      assert s[1..][k - 1..] == s[k..];
      assert AllWhitespace(s[..k]) by {
        forall j | 0 <= j < k ensures IsWhitespace(s[..k][j]) {
          if j > 0 {
            assert s[..k][j] == s[1..][..k - 1][j - 1];
          }
        }
      }
      r
    else s
  }

  /** `s` without its trailing whitespace. */
  function TrimEnd(s: string): (r: string)
    ensures |r| <= |s| && r == s[..|r|]
    ensures AllWhitespace(s[|r|..])
    ensures r != [] ==> !IsWhitespace(r[|r| - 1])
    decreases |s|
  {
    if s != [] && IsWhitespace(s[|s| - 1]) then
      var r := TrimEnd(s[..|s| - 1]);
      assert s[|r|..] == s[..|s| - 1][|r|..] + [s[|s| - 1]];
      r
    else s
  }

  /** `s.trim()`: never longer than `s`, and a non-empty result neither
      starts nor ends with whitespace, so nothing more could have been cut. */
  function Trim(s: string): (r: string)
    ensures |r| <= |s|
    ensures r != [] ==> !IsWhitespace(r[0]) && !IsWhitespace(r[|r| - 1])
  {
    var u := TrimStart(s);
    var t := TrimEnd(u);
    assert t != [] ==> t[0] == u[0];
    t
  }

  /** `trim` cuts a block of whitespace off each end and nothing else: the
      result is a contiguous piece of `s`, and everything cut away is
      whitespace. */
  lemma TrimIsInfix(s: string)
    ensures var t := Trim(s);
            exists i :: 0 <= i <= i + |t| <= |s| && t == s[i..i + |t|] &&
                        AllWhitespace(s[..i]) && AllWhitespace(s[i + |t|..])
  {
    CutBothEnds(s, TrimStart(s), Trim(s));
  }

  /** Cutting a whitespace prefix and then a whitespace suffix leaves an infix. */
  lemma CutBothEnds(s: string, u: string, t: string)
    requires |u| <= |s| && u == s[|s| - |u|..] && AllWhitespace(s[..|s| - |u|])
    requires |t| <= |u| && t == u[..|t|] && AllWhitespace(u[|t|..])
    ensures exists i :: 0 <= i <= i + |t| <= |s| && t == s[i..i + |t|] &&
                        AllWhitespace(s[..i]) && AllWhitespace(s[i + |t|..])
  {
    var i := |s| - |u|;
    assert s[i..][..|t|] == s[i..i + |t|];
    assert s[i..][|t|..] == s[i + |t|..];
  }

  /** A name is rejected by `setUsername` exactly when it is all whitespace. */
  lemma TrimEmpty(s: string)
    ensures Trim(s) == [] <==> AllWhitespace(s)
  {
    var u := TrimStart(s);
    if Trim(s) == [] {
      assert u == u[0..];
      assert u == [];
      assert s[..|s|] == s;
    }
    assert u != [] ==> u[0] == s[|s| - |u|];
  }

  /** Trimming a trimmed name changes nothing. */
  lemma TrimIdempotent(s: string)
    ensures Trim(Trim(s)) == Trim(s)
  {
    var t := Trim(s);
    if t != [] {
      TrimIsInfix(s);
      assert TrimStart(t) == t;
      assert TrimEnd(t) == t;
    }
  }

  function DigitChar(d: nat): (r: char)
    requires d < 10
    ensures '0' <= r <= '9' && DigitValue(r) == d
  {
    ['0', '1', '2', '3', '4', '5', '6', '7', '8', '9'][d]
  }

  /** The decimal numeral of `n`, as a template literal prints a number. */
  function Digits(n: nat): (r: string)
    ensures |r| >= 1
    ensures forall i :: 0 <= i < |r| ==> '0' <= r[i] <= '9'
    ensures r[0] == '0' <==> n == 0
    decreases n
  {
    if n < 10 then [DigitChar(n)]
    else
      var high := Digits(n / 10);
      assert (high + [DigitChar(n % 10)])[0] == high[0];
      high + [DigitChar(n % 10)]
  }

  function DigitValue(c: char): int
  {
    c as int - '0' as int
  }

  /** The number a decimal numeral stands for. */
  function ParseDecimal(s: string): int
    decreases |s|
  {
    if s == [] then 0 else ParseDecimal(s[..|s| - 1]) * 10 + DigitValue(s[|s| - 1])
  }

  lemma {:induction false} DigitsParse(n: nat)
    ensures ParseDecimal(Digits(n)) == n
    decreases n
  {
    var d := Digits(n);
    if n < 10 {
      assert d[..0] == [];
    } else {
      DigitsParse(n / 10);
      assert d[..|d| - 1] == Digits(n / 10);
    }
  }

  /** Different numbers print differently. */
  lemma DigitsInjective(j: nat, k: nat)
    requires Digits(j) == Digits(k)
    ensures j == k
  {
    DigitsParse(j);
    DigitsParse(k);
  }

  /** The name tried at step `k`: `name` itself, then `${name}_${k}`. */
  function Candidate(name: string, k: nat): (r: string)
    ensures k == 0 ==> r == name
    ensures k > 0 ==> |r| > |name| + 1 && r[..|name|] == name && r[|name|] == '_'
  {
    if k == 0 then name else name + "_" + Digits(k)
  }

  /** The names tried are pairwise distinct, so the search cannot cycle. */
  lemma CandidatesDistinct(name: string, j: nat, k: nat)
    requires j != k
    ensures Candidate(name, j) != Candidate(name, k)
  {
    if j != 0 && k != 0 && Candidate(name, j) == Candidate(name, k) {
      var pre := |name| + 1;
      assert Digits(j) == Candidate(name, j)[pre..];
      assert Digits(k) == Candidate(name, k)[pre..];
      DigitsInjective(j, k);
    }
  }

  /** The names tried before step `k`. */
  function Tried(name: string, k: nat): set<string>
  {
    if k == 0 then {} else Tried(name, k - 1) + {Candidate(name, k - 1)}
  }

  lemma {:induction false} TriedSize(name: string, k: nat)
    ensures |Tried(name, k)| == k
    ensures forall m :: m >= k ==> Candidate(name, m) !in Tried(name, k)
    decreases k
  {
    if k > 0 {
      TriedSize(name, k - 1);
      forall m | m >= k ensures Candidate(name, m) !in Tried(name, k) {
        CandidatesDistinct(name, m, k - 1);
      }
    }
  }

  lemma {:induction false} TriedTaken(name: string, names: seq<string>, k: nat)
    requires forall j :: 0 <= j < k ==> Candidate(name, j) in names
    ensures Tried(name, k) <= set x | x in names
    decreases k
  {
    if k > 0 {
      TriedTaken(name, names, k - 1);
    }
  }

  lemma {:induction false} ElementsSize(names: seq<string>)
    ensures |set x | x in names| <= |names|
    decreases |names|
  {
    if names != [] {
      ElementsSize(names[1..]);
      assert (set x | x in names) == (set x | x in names[1..]) + {names[0]};
    }
  }

  /** Pigeonhole: at most `|names|` of the tried names can be taken. */
  lemma TakenBound(name: string, names: seq<string>, k: nat)
    requires forall j :: 0 <= j < k ==> Candidate(name, j) in names
    ensures k <= |names|
  {
    var taken := set x | x in names;
    TriedSize(name, k);
    TriedTaken(name, names, k);
    ElementsSize(names);
    SubsetSize(Tried(name, k), taken);
  }

  lemma SubsetSize(a: set<string>, b: set<string>)
    requires a <= b
    ensures |a| <= |b|
  {
    assert b == a + (b - a);
  }

  /** The first step from `k` on whose name is free. */
  function FirstFreeFrom(name: string, names: seq<string>, k: nat): (r: nat)
    requires forall j :: 0 <= j < k ==> Candidate(name, j) in names
    ensures k <= r <= |names|
    ensures Candidate(name, r) !in names
    ensures forall j :: 0 <= j < r ==> Candidate(name, j) in names
    decreases |names| + 1 - k
  {
    TakenBound(name, names, k);
    if Candidate(name, k) in names then FirstFreeFrom(name, names, k + 1) else k
  }

  /** The step `ensureUniqueName` stops at: the least `k` whose name is free. */
  function FirstFree(name: string, names: seq<string>): (r: nat)
    ensures r <= |names| && Candidate(name, r) !in names
    ensures forall j :: 0 <= j < r ==> Candidate(name, j) in names
  {
    FirstFreeFrom(name, names, 0)
  }

  /** The name `ensureUniqueName(name)` returns for the list `names`. */
  function UniqueName(name: string, names: seq<string>): (r: string)
    ensures r !in names
    ensures name !in names ==> r == name
    ensures name in names ==> exists k :: 1 <= k <= |names| && r == Candidate(name, k) &&
                                          forall j :: 1 <= j < k ==> Candidate(name, j) in names
  {
    var k := FirstFree(name, names);
    assert name == Candidate(name, 0);
    Candidate(name, k)
  }

  /** Two calls in a row with the same name: the second one goes further
      down the list and so returns a different name. */
  lemma SuccessiveCallsDiffer(name: string, names: seq<string>)
    ensures var first := UniqueName(name, names);
            var names' := names + [first];
            FirstFree(name, names') > FirstFree(name, names) &&
            UniqueName(name, names') != first
  {
    var k := FirstFree(name, names);
    var names' := names + [Candidate(name, k)];
    var k' := FirstFree(name, names');
    assert forall j :: 0 <= j <= k ==> Candidate(name, j) in names';
    CandidatesDistinct(name, k, k');
  }

  /** The two `localStorage` keys the context uses. */
  class UserStore {
    var existingNames: seq<string>
    var username: Option<string>

    constructor (storedNames: seq<string>, storedUsername: Option<string>)
      ensures existingNames == storedNames && username == storedUsername
    {
      existingNames, username := storedNames, storedUsername;
    }

    /** `ensureUniqueName(name)`. */
    method EnsureUniqueName(name: string) returns (uniqueName: string)
      modifies this`existingNames
      ensures uniqueName == UniqueName(name, old(existingNames))
      ensures existingNames == old(existingNames) + [uniqueName]
    {
      uniqueName := name;
      var counter: nat := 1;
      while uniqueName in existingNames
        invariant existingNames == old(existingNames)
        invariant uniqueName == Candidate(name, counter - 1)
        invariant forall j :: 0 <= j < counter - 1 ==> Candidate(name, j) in existingNames
        invariant counter - 1 <= |existingNames|
        decreases |existingNames| + 1 - counter
      {
        TakenBound(name, existingNames, counter);
        uniqueName := name + "_" + Digits(counter);
        counter := counter + 1;
      }
      FirstFreeIsFirst(name, existingNames, counter - 1);
      existingNames := existingNames + [uniqueName];
    }

    /** `setUsername(name)`. */
    method SetUsername(name: string)
      modifies this
      ensures Trim(name) == [] ==> existingNames == old(existingNames) && username == old(username)
      ensures Trim(name) != [] ==>
                var unique := UniqueName(Trim(name), old(existingNames));
                && username == Some(unique)
                && existingNames == old(existingNames) + [unique]
    {
      var sanitizedName := Trim(name);
      if sanitizedName != [] {
        var uniqueName := EnsureUniqueName(sanitizedName);
        username := Some(uniqueName);
      }
    }
  }

  /** A free step with every earlier step taken is the first free step. */
  lemma FirstFreeIsFirst(name: string, names: seq<string>, k: nat)
    requires Candidate(name, k) !in names
    requires forall j :: 0 <= j < k ==> Candidate(name, j) in names
    ensures FirstFree(name, names) == k
  {
  }
}
