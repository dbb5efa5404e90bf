/** The string functions of the Go library that the modelled code calls. */
module Text {
  import opened Wrappers

  /** unicode.IsSpace. */
  predicate IsSpace(c: char) {
    || '\t' <= c <= '\r' || c == ' ' || c == '\U{0085}' || c == '\U{00A0}' || c == '\U{1680}'
    || '\U{2000}' <= c <= '\U{200A}' || c == '\U{2028}' || c == '\U{2029}' || c == '\U{202F}'
    || c == '\U{205F}' || c == '\U{3000}'
  }

  function TrimLeft(s: string): string {
    if s != "" && IsSpace(s[0]) then TrimLeft(s[1..]) else s
  }

  function TrimRight(s: string): string {
    if s != "" && IsSpace(s[|s| - 1]) then TrimRight(s[..|s| - 1]) else s
  }

  /** strings.TrimSpace. */
  function TrimSpace(s: string): string {
    TrimRight(TrimLeft(s))
  }

  /** How many characters precede the first space. */
  function WordEnd(s: string): (n: nat)
    ensures n <= |s| && (s != "" && !IsSpace(s[0]) ==> n > 0)
  {
    if s == "" || IsSpace(s[0]) then 0 else 1 + WordEnd(s[1..])
  }

  /** strings.Fields: the words between runs of spaces. */
  function Fields(s: string): seq<string>
    decreases |s|
  {
    if s == "" then []
    else if IsSpace(s[0]) then Fields(s[1..])
    else [s[..WordEnd(s)]] + Fields(s[WordEnd(s)..])
  }

  /** strings.Join. */
  function Join(parts: seq<string>, sep: string): string {
    if parts == [] then ""
    else if |parts| == 1 then parts[0]
    else parts[0] + sep + Join(parts[1..], sep)
  }

  predicate IsDigit(c: char) { '0' <= c <= '9' }

  /** An unsigned decimal number. */
  predicate IsNumber(s: string) {
    s != "" && forall k :: 0 <= k < |s| ==> IsDigit(s[k])
  }

  function Value(s: string): nat
    requires forall k :: 0 <= k < |s| ==> IsDigit(s[k])
  {
    if s == "" then 0
    else
      assert IsDigit(s[|s| - 1]);
      10 * Value(s[..|s| - 1]) + (s[|s| - 1] as int - '0' as int)
  }

  /**
    strconv.Atoi: an optional sign and digits.  Where Go reports a number too large
    for 64 bits this returns it; every caller then refuses it as out of range.
    */
  function Atoi(s: string): Option<int> {
    if IsNumber(s) then Some(Value(s))
    else if s != "" && s[0] == '+' && IsNumber(s[1..]) then Some(Value(s[1..]))
    else if s != "" && s[0] == '-' && IsNumber(s[1..]) then Some(0 - Value(s[1..]) as int)
    else None
  }

  function Digit(d: int): char
    requires 0 <= d < 10
  {
    '0' + d as char
  }

  /** strconv.Itoa, for what is not negative. */
  function Itoa(n: nat): (s: string)
    ensures IsNumber(s) && Value(s) == n
  {
    if n < 10 then [Digit(n)] else Itoa(n / 10) + [Digit(n % 10)]
  }

  /** The verb %02d, for two digits at most. */
  function Pad2(n: int): (s: string)
    requires 0 <= n < 100
    ensures |s| == 2 && IsNumber(s) && Value(s) == n
  {
    var s := [Digit(n / 10), Digit(n % 10)];
    assert s[..1][..0] == "" && Value(s[..1]) == n / 10;
    s
  }

  // ---------- Trimming and fields ----------

  lemma {:induction false} TrimLeftStops(s: string)
    ensures TrimLeft(s) == "" || !IsSpace(TrimLeft(s)[0])
    ensures TrimLeft(TrimLeft(s)) == TrimLeft(s)
  {
    if s != "" && IsSpace(s[0]) { TrimLeftStops(s[1..]); }
  }

  lemma {:induction false} TrimRightStops(s: string)
    ensures TrimRight(s) <= s
    ensures s != "" && !IsSpace(s[0]) ==> TrimRight(s) != ""
    ensures TrimRight(TrimRight(s)) == TrimRight(s)
  {
    if s != "" && IsSpace(s[|s| - 1]) { TrimRightStops(s[..|s| - 1]); }
  }

  lemma TrimmingTwice(s: string)
    ensures TrimSpace(TrimSpace(s)) == TrimSpace(s)
  {
    TrimLeftStops(s);
    TrimRightStops(TrimLeft(s));
  }

  lemma {:induction false} FieldsSkipLeft(s: string)
    ensures Fields(TrimLeft(s)) == Fields(s)
  {
    if s != "" && IsSpace(s[0]) { FieldsSkipLeft(s[1..]); }
  }

  lemma {:induction false} WordBeforeSpace(s: string, c: char)
    requires IsSpace(c)
    ensures WordEnd(s + [c]) == WordEnd(s)
  {
    if s != "" {
      assert (s + [c])[1..] == s[1..] + [c];
      WordBeforeSpace(s[1..], c);
    }
  }

  lemma {:induction false} FieldsSkipSpace(s: string, c: char)
    requires IsSpace(c)
    ensures Fields(s + [c]) == Fields(s)
    decreases |s|
  {
    if s == "" {
      assert (s + [c])[1..] == "";
    } else if IsSpace(s[0]) {
      assert (s + [c])[1..] == s[1..] + [c];
      FieldsSkipSpace(s[1..], c);
    } else {
      var n := WordEnd(s);
      WordBeforeSpace(s, c);
      assert (s + [c])[..n] == s[..n] && (s + [c])[n..] == s[n..] + [c];
      FieldsSkipSpace(s[n..], c);
    }
  }

  lemma {:induction false} FieldsSkipRight(s: string)
    ensures Fields(TrimRight(s)) == Fields(s)
  {
    if s != "" && IsSpace(s[|s| - 1]) {
      var rest := s[..|s| - 1];
      assert s == rest + [s[|s| - 1]];
      FieldsSkipSpace(rest, s[|s| - 1]);
      FieldsSkipRight(rest);
    }
  }

  /** Trimming leaves the fields alone. */
  lemma FieldsOfTrimmed(s: string)
    ensures Fields(TrimSpace(s)) == Fields(s)
  {
    FieldsSkipLeft(s);
    FieldsSkipRight(TrimLeft(s));
  }

  // ---------- What the fields are ----------

  predicate IsWord(w: string) {
    w != "" && forall k :: 0 <= k < |w| ==> !IsSpace(w[k])
  }

  lemma {:induction false} WordEndsAtSpace(s: string, c: char, rest: string)
    requires IsSpace(c)
    ensures WordEnd(s + [c] + rest) == WordEnd(s)
  {
    if s != "" {
      assert (s + [c] + rest)[1..] == s[1..] + [c] + rest;
      WordEndsAtSpace(s[1..], c, rest);
    }
  }

  /** A space parts the fields before it from those behind it, in this order. */
  lemma {:induction false} FieldsPart(a: string, c: char, b: string)
    requires IsSpace(c)
    ensures Fields(a + [c] + b) == Fields(a) + Fields(b)
    decreases |a|
  {
    var s := a + [c] + b;
    if a == "" {
      assert s[1..] == b;
    } else if IsSpace(a[0]) {
      assert s[1..] == a[1..] + [c] + b;
      FieldsPart(a[1..], c, b);
    } else {
      var n := WordEnd(a);
      WordEndsAtSpace(a, c, b);
      assert s[..n] == a[..n] && s[n..] == a[n..] + [c] + b;
      FieldsPart(a[n..], c, b);
    }
  }

  lemma {:induction false} WholeWord(w: string)
    requires forall k :: 0 <= k < |w| ==> !IsSpace(w[k])
    ensures WordEnd(w) == |w|
  {
    if w != "" { WholeWord(w[1..]); }
  }

  /** A word is its own only field. */
  lemma FieldsOfWord(w: string)
    requires IsWord(w)
    ensures Fields(w) == [w]
  {
    WholeWord(w);
    assert w[..|w|] == w && Fields(w[|w|..]) == [];
  }

  /** Words with a space between them are the fields, in the same order. */
  lemma {:induction false} OnlyWords(words: seq<string>)
    requires forall k :: 0 <= k < |words| ==> IsWord(words[k])
    ensures Fields(Join(words, " ")) == words
  {
    hide Fields, IsWord;
    if |words| == 1 {
      FieldsOfWord(words[0]);
    } else if |words| > 1 {
      OnlyWords(words[1..]);
      FieldsOfWord(words[0]);
      FieldsPart(words[0], ' ', Join(words[1..], " "));
    } else {
      NoFields();
    }
  }

  lemma NoFields()
    ensures Fields("") == []
  {
  }

  /** A power of ten. */
  function Power(n: nat): nat { if n == 0 then 1 else 10 * Power(n - 1) }

  /** The first digit counts by its place. */
  lemma {:induction false} LeadingDigit(d: char, s: string)
    requires IsDigit(d) && forall k :: 0 <= k < |s| ==> IsDigit(s[k])
    ensures Value([d] + s) == (d as int - '0' as int) * Power(|s|) + Value(s)
  {
    if s == "" {
      assert [d][..0] == "";
    } else {
      var n, x := |s| - 1, d as int - '0' as int;
      LeadingDigit(d, s[..n]);
      assert ([d] + s)[..n + 1] == [d] + s[..n];
      Tenfold(x, Power(n));
      assert Power(|s|) == 10 * Power(n);
    }
  }

  lemma Tenfold(x: int, p: int)
    ensures 10 * (x * p) == x * (10 * p)
  {
  }

  /** A trimmed string begins with its first field. */
  lemma TrimmedStart(s: string)
    requires TrimSpace(s) != ""
    ensures Fields(s) != [] && Fields(s)[0] != "" && Fields(s)[0][0] == TrimSpace(s)[0]
  {
    FieldsOfTrimmed(s);
    TrimLeftStops(s);
    TrimRightStops(TrimLeft(s));
  }

  lemma AlreadyTrimmed(s: string)
    requires s != "" && !IsSpace(s[0]) && !IsSpace(s[|s| - 1])
    ensures TrimSpace(s) == s
  {
  }

  /** What trimming leaves is all between the outer spaces, and neither starts nor ends with one. */
  lemma TrimmedMiddle(s: string) returns (left: string, right: string)
    ensures s == left + TrimSpace(s) + right
    ensures forall c :: c in left || c in right ==> IsSpace(c)
    ensures TrimSpace(s) != "" ==> !IsSpace(TrimSpace(s)[0]) && !IsSpace(TrimSpace(s)[|TrimSpace(s)| - 1])
  {
    left := TrimmedLeft(s);
    right := TrimmedRight(TrimLeft(s));
    TrimLeftStops(s);
    TrimRightStops(TrimLeft(s));
  }

  lemma {:induction false} TrimmedLeft(s: string) returns (left: string)
    ensures s == left + TrimLeft(s) && forall c :: c in left ==> IsSpace(c)
  {
    left := "";
    if s != "" && IsSpace(s[0]) {
      var rest := TrimmedLeft(s[1..]);
      left := [s[0]] + rest;
    }
  }

  lemma {:induction false} TrimmedRight(s: string) returns (right: string)
    ensures s == TrimRight(s) + right && forall c :: c in right ==> IsSpace(c)
    ensures TrimRight(s) != "" ==> !IsSpace(TrimRight(s)[|TrimRight(s)| - 1])
  {
    right := "";
    if s != "" && IsSpace(s[|s| - 1]) {
      var rest := TrimmedRight(s[..|s| - 1]);
      right := rest + [s[|s| - 1]];
    }
  }

  /** Trimming drops nothing but spaces. */
  lemma TrimmingDropsSpaces(s: string, c: char)
    requires c in s && !IsSpace(c)
    ensures c in TrimSpace(s)
  {
    LeftDropsSpaces(s, c);
    RightDropsSpaces(TrimLeft(s), c);
  }

  lemma {:induction false} LeftDropsSpaces(s: string, c: char)
    requires c in s && !IsSpace(c)
    ensures c in TrimLeft(s)
  {
    if IsSpace(s[0]) { LeftDropsSpaces(s[1..], c); }
  }

  lemma {:induction false} RightDropsSpaces(s: string, c: char)
    requires c in s && !IsSpace(c)
    ensures c in TrimRight(s)
  {
    if IsSpace(s[|s| - 1]) { RightDropsSpaces(s[..|s| - 1], c); }
  }
}
