/**
 * The parts of Python's built-in behaviour that the modelled code relies on:
 * an exception as a value, None, list indexing with negative indices,
 * `s[:n]` slicing, `str.strip()`, `str.join` and `posixpath.join`.
 */
module PyCore {

  /** A call that either returns a value or raises an exception carrying a message. */
  datatype Result<+T> = Ok(value: T) | Raised(message: string)

  /** Python's `None`, or a value. */
  datatype Option<+T> = None | Some(value: T)

  /** The position a Python index `i` denotes in a sequence of length `n`: a negative index counts from the end. */
  function Wrap(i: int, n: nat): int
  {
    if i < 0 then n + i else i
  }

  /** `s[i]` on a Python list: `-|s| <= i < |s|` is accepted, anything else raises IndexError. */
  function Index<T>(s: seq<T>, i: int): (r: Result<T>)
    ensures r.Ok? <==> -|s| <= i < |s|
    ensures r.Ok? ==> 0 <= Wrap(i, |s|) < |s| && r.value == s[Wrap(i, |s|)]
  {
    if 0 <= i < |s| then Ok(s[i])
    else if -|s| <= i < 0 then Ok(s[|s| + i])
    else Raised("list index out of range")
  }

  /** `s[:n]` in Python: a negative bound counts from the end; the bound is clamped to `0..|s|`. */
  function SliceTo<T>(s: seq<T>, n: int): (r: seq<T>)
    ensures r <= s
    ensures n >= 0 ==> |r| == if n <= |s| then n else |s|
    ensures n < 0 ==> |r| == if |s| + n >= 0 then |s| + n else 0
  {
    if n >= |s| then s
    else if n >= 0 then s[..n]
    else if |s| + n >= 0 then s[..|s| + n]
    else []
  }

  /** `c.isspace()`: the characters `str.strip()` removes when called without arguments. */
  predicate IsSpace(c: char)
  {
    var k := c as int;
    (9 <= k <= 13) || (28 <= k <= 32) || k == 0x85 || k == 0xA0 || k == 0x1680
    || (0x2000 <= k <= 0x200A) || k == 0x2028 || k == 0x2029 || k == 0x202F
    || k == 0x205F || k == 0x3000
  }

  /** Every character of `s` is whitespace. */
  predicate AllSpace(s: string)
  {
    forall i :: 0 <= i < |s| ==> IsSpace(s[i])
  }

  /** `s.lstrip()`: drop the leading whitespace. */
  function StripLeading(s: string): (r: string)
    ensures |r| <= |s| && r == s[|s| - |r|..]
    ensures AllSpace(s[..|s| - |r|])
    ensures r != [] ==> !IsSpace(r[0])
    decreases |s|
  {
    if s != [] && IsSpace(s[0]) then StripLeading(s[1..]) else s
  }

  /** `s.rstrip()`: drop the trailing whitespace. */
  function StripTrailing(s: string): (r: string)
    ensures r <= s
    ensures AllSpace(s[|r|..])
    ensures r != [] ==> !IsSpace(r[|r| - 1])
    decreases |s|
  {
    if s != [] && IsSpace(s[|s| - 1]) then StripTrailing(s[..|s| - 1]) else s
  }

  /** `s.strip()`. */
  function Strip(s: string): (r: string)
    ensures |r| <= |s|
    ensures r != [] ==> !IsSpace(r[0]) && !IsSpace(r[|r| - 1])
  {
    StripTrailing(StripLeading(s))
  }

  /** Stripping the leading whitespace off `lead + rest` leaves `rest` when `rest` does not itself start with whitespace. */
  lemma {:induction false} StripLeadingOf(lead: string, rest: string)
    requires AllSpace(lead)
    requires rest != [] ==> !IsSpace(rest[0])
    ensures StripLeading(lead + rest) == rest
    decreases |lead|
  {
    if lead == [] {
      assert lead + rest == rest;
    } else {
      assert (lead + rest)[1..] == lead[1..] + rest;
      StripLeadingOf(lead[1..], rest);
    }
  }

  /** Stripping the trailing whitespace off `rest + trail` leaves `rest` when `rest` does not itself end with whitespace. */
  lemma {:induction false} StripTrailingOf(rest: string, trail: string)
    requires AllSpace(trail)
    requires rest != [] ==> !IsSpace(rest[|rest| - 1])
    ensures StripTrailing(rest + trail) == rest
    decreases |trail|
  {
    if trail == [] {
      assert rest + trail == rest;
    } else {
      assert (rest + trail)[..|rest + trail| - 1] == rest + trail[..|trail| - 1];
      StripTrailingOf(rest, trail[..|trail| - 1]);
    }
  }

  /**
   * `strip` is characterised by what it keeps: whenever `s` is whitespace, then a text that
   * neither starts nor ends with whitespace, then whitespace, `strip` returns exactly that text.
   */
  lemma StripKeepsTheInnerText(lead: string, text: string, trail: string)
    requires AllSpace(lead) && AllSpace(trail)
    requires text != [] ==> !IsSpace(text[0]) && !IsSpace(text[|text| - 1])
    ensures Strip(lead + text + trail) == text
  {
    if text == [] {
      assert lead + text + trail == lead + trail;
      assert AllSpace(lead + trail);
      StripLeadingOf(lead + trail, []);
      assert lead + trail + [] == lead + trail;
      StripTrailingOf([], []);
    } else {
      assert lead + text + trail == lead + (text + trail);
      StripLeadingOf(lead, text + trail);
      StripTrailingOf(text, trail);
    }
  }

  /** Stripping twice is stripping once. */
  lemma StripIdempotent(s: string)
    ensures Strip(Strip(s)) == Strip(s)
  {
    var t := Strip(s);
    assert StripLeading(t) == t;
    assert StripTrailing(t) == t;
  }

  /** `sep.join(xs)`. */
  function Join(sep: string, xs: seq<string>): (r: string)
    ensures xs == [] ==> r == []
    ensures |xs| == 1 ==> r == xs[0]
    decreases |xs|
  {
    if xs == [] then []
    else if |xs| == 1 then xs[0]
    else Join(sep, xs[..|xs| - 1]) + sep + xs[|xs| - 1]
  }

  /** The joined text is the first element, the separator, then the join of the rest. */
  lemma {:induction false} JoinFirst(sep: string, xs: seq<string>)
    requires |xs| >= 2
    ensures Join(sep, xs) == xs[0] + sep + Join(sep, xs[1..])
    decreases |xs|
  {
    if |xs| == 2 {
      assert xs[..1] == [xs[0]];
      assert xs[1..] == [xs[1]];
    } else {
      var init := xs[..|xs| - 1];
      assert init[1..] == xs[1..][..|xs[1..]| - 1];
      JoinFirst(sep, init);
    }
  }

  /** The joined text is as long as its parts plus one separator between each neighbouring pair. */
  lemma {:induction false} JoinLength(sep: string, xs: seq<string>)
    requires |xs| >= 1
    ensures |Join(sep, xs)| == TotalLength(xs) + |sep| * (|xs| - 1)
    decreases |xs|
  {
    if |xs| > 1 {
      var init := xs[..|xs| - 1];
      JoinLength(sep, init);
      TotalLengthSnoc(init, xs[|xs| - 1]);
      assert init + [xs[|xs| - 1]] == xs;
    }
  }

  /** The sum of the lengths of the strings in `xs`. */
  function TotalLength(xs: seq<string>): nat
  {
    if xs == [] then 0 else |xs[0]| + TotalLength(xs[1..])
  }

  lemma {:induction false} TotalLengthSnoc(xs: seq<string>, x: string)
    ensures TotalLength(xs + [x]) == TotalLength(xs) + |x|
  {
    if xs != [] {
      assert (xs + [x])[1..] == xs[1..] + [x];
      TotalLengthSnoc(xs[1..], x);
    }
  }

  /** Where each part of `a + b + c + d + e` sits. */
  lemma FiveParts(a: string, b: string, c: string, d: string, e: string)
    ensures var p := a + b + c + d + e;
      && |p| == |a| + |b| + |c| + |d| + |e|
      && a <= p
      && p[|a|..|a| + |b|] == b
      && p[|a| + |b|..|p| - |e| - |d|] == c
      && p[|p| - |e| - |d|..] == d + e
  {
    var p := a + b + c + d + e;
    assert p == a + (b + (c + (d + e)));
    assert p == (a + b) + c + (d + e);
    assert p == (a + b + c) + (d + e);
  }

  /** `b` names an absolute path. */
  predicate IsAbsolute(b: string)
  {
    b != [] && b[0] == '/'
  }

  /** `posixpath.join(a, b)`. */
  function PathJoin(a: string, b: string): (r: string)
    ensures |r| >= |b| && r[|r| - |b|..] == b
    ensures IsAbsolute(b) ==> r == b
    ensures !IsAbsolute(b) ==> a <= r && |r| <= |a| + 1 + |b|
    ensures !IsAbsolute(b) && a != [] ==> |r| > |b| && r[|r| - |b| - 1] == '/'
  {
    if IsAbsolute(b) then b
    else if a == [] || a[|a| - 1] == '/' then a + b
    else a + "/" + b
  }
}
