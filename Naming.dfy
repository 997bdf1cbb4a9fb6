/** The crawler's pure naming rules: the extension chosen for a MIME type,
    PHP's `str_pad($n, 10, '0', STR_PAD_LEFT)` of an ordinal, the file name of
    a canvas and the directory name of a collection member with its label
    sanitiser (`preg_replace('/[^a-zA-Z0-9-_]+/', '_', $label)`). */
module Naming {

  // ---------------------------------------------------------------------
  // Extensions

  /** The extension used for saved files of the given MIME type. */
  function ExtensionFromMime(mime: string): (ext: string)
  {
    match mime
    case "image/tiff" => "tif"
    case "image/jpeg" => "jpg"
    case "text/plain" => "txt"
    case _ => "bin"
  }

  /** The MIME type an extension stands for, when it stands for one. */
  function MimeOfExtension(ext: string): (mime: string)
  {
    match ext
    case "tif" => "image/tiff"
    case "jpg" => "image/jpeg"
    case "txt" => "text/plain"
    case _ => ""
  }

  /** Exactly the three known types get a specific extension, and it names the
      type back; every other type falls into "bin". */
  lemma ExtensionRoundTrip(mime: string)
    ensures ExtensionFromMime(mime) in {"tif", "jpg", "txt", "bin"}
    ensures ExtensionFromMime(mime) != "bin" <==> mime in {"image/tiff", "image/jpeg", "text/plain"}
    ensures ExtensionFromMime(mime) != "bin" ==> MimeOfExtension(ExtensionFromMime(mime)) == mime
  {
  }

  // ---------------------------------------------------------------------
  // Decimal digits

  predicate IsDigit(ch: char)
  {
    '0' <= ch <= '9'
  }

  predicate AllDigits(s: string)
  {
    forall i :: 0 <= i < |s| ==> IsDigit(s[i])
  }

  function DigitChar(d: nat): (ch: char)
    requires d < 10
    ensures IsDigit(ch)
  {
    ('0' as int + d) as char
  }

  function DigitOf(ch: char): (d: nat)
    requires IsDigit(ch)
    ensures d < 10
  {
    ch as int - '0' as int
  }

  /** The number a string of decimal digits denotes (leading zeros allowed). */
  function DigitsValue(s: string): nat
    requires AllDigits(s)
  {
    if s == [] then 0 else DigitsValue(s[..|s| - 1]) * 10 + DigitOf(s[|s| - 1])
  }

  /** PHP's conversion of a non-negative integer to a string: its decimal
      digits, without leading zeros. */
  function Decimal(n: nat): (s: string)
    ensures |s| >= 1
  {
    if n < 10 then [DigitChar(n)] else Decimal(n / 10) + [DigitChar(n % 10)]
  }

  /** The result is made of digits and has no leading zero, except for 0 itself. */
  lemma {:induction false} DecimalDigits(n: nat)
    ensures AllDigits(Decimal(n))
    ensures Decimal(n)[0] == '0' <==> n == 0
  {
    if n >= 10 {
      DecimalDigits(n / 10);
      var s := Decimal(n);
      assert s[0] == Decimal(n / 10)[0];
    }
  }

  /** Reading the digits back gives the number. */
  lemma {:induction false} DecimalValue(n: nat)
    ensures AllDigits(Decimal(n)) && DigitsValue(Decimal(n)) == n
  {
    DecimalDigits(n);
    if n >= 10 {
      var s := Decimal(n);
      assert s[..|s| - 1] == Decimal(n / 10);
      DecimalValue(n / 10);
    }
  }

  function Pow10(k: nat): (p: nat)
    ensures p >= 1
  {
    if k == 0 then 1 else 10 * Pow10(k - 1)
  }

  /** A number below 10^k takes at most k digits. */
  lemma {:induction false} DecimalLength(n: nat, k: nat)
    requires 1 <= k && n < Pow10(k)
    ensures |Decimal(n)| <= k
  {
    if n >= 10 {
      assert k >= 2;
      DecimalLength(n / 10, k - 1);
    }
  }

  // ---------------------------------------------------------------------
  // Zero padding

  function Zeros(k: nat): (z: string)
    ensures |z| == k && forall i :: 0 <= i < k ==> z[i] == '0'
  {
    seq(k, _ => '0')
  }

  /** `str_pad($n, 10, '0', STR_PAD_LEFT)`: the decimal digits of `n`, left-padded
      with '0' to ten characters; a longer number is kept whole. */
  function Pad10(n: nat): (r: string)
  {
    var digits := Decimal(n);
    if |digits| >= 10 then digits else Zeros(10 - |digits|) + digits
  }

  /** The padding only ever adds zeros in front: the result is at least ten
      characters long, ends with the number's own digits (nothing is cut off)
      and everything before them is '0'. */
  lemma Pad10Shape(n: nat)
    ensures var r, digits := Pad10(n), Decimal(n);
            && |r| == (if |digits| >= 10 then |digits| else 10)
            && r[|r| - |digits|..] == digits
            && forall i :: 0 <= i < |r| - |digits| ==> r[i] == '0'
  {
  }

  /** The padded ordinal is made of digits only. */
  lemma Pad10Digits(n: nat)
    ensures AllDigits(Pad10(n))
  {
    DecimalDigits(n);
    if |Decimal(n)| < 10 {
      LeadingZerosValue(10 - |Decimal(n)|, Decimal(n));
    }
  }

  /** Leading zeros do not change the value of a digit string. */
  lemma {:induction false} LeadingZerosValue(k: nat, s: string)
    requires AllDigits(s)
    ensures AllDigits(Zeros(k) + s)
    ensures DigitsValue(Zeros(k) + s) == DigitsValue(s)
    decreases |s|, k
  {
    var t := Zeros(k) + s;
    if s == [] {
      assert t == Zeros(k);
      if k > 0 {
        assert t[..|t| - 1] == Zeros(k - 1);
        LeadingZerosValue(k - 1, []);
        assert Zeros(k - 1) + [] == Zeros(k - 1);
      }
    } else {
      assert t[..|t| - 1] == Zeros(k) + s[..|s| - 1];
      LeadingZerosValue(k, s[..|s| - 1]);
    }
  }

  /** The padded ordinal still reads back as the ordinal. */
  lemma Pad10Value(n: nat)
    ensures AllDigits(Pad10(n)) && DigitsValue(Pad10(n)) == n
  {
    var digits := Decimal(n);
    DecimalValue(n);
    if |digits| < 10 {
      LeadingZerosValue(10 - |digits|, digits);
    }
  }

  /** Distinct ordinals are padded to distinct strings. */
  lemma Pad10Injective(a: nat, b: nat)
    ensures Pad10(a) == Pad10(b) <==> a == b
  {
    Pad10Value(a);
    Pad10Value(b);
  }

  /** Every ordinal below 10^10 takes exactly ten characters. */
  lemma Pad10Width(n: nat)
    requires n < Pow10(10)
    ensures |Pad10(n)| == 10
  {
    DecimalLength(n, 10);
  }

  // ---------------------------------------------------------------------
  // Lexicographic order of padded ordinals

  /** Strict lexicographic order on strings of the same length. */
  predicate LexLess(x: string, y: string)
    decreases |x|
  {
    |x| > 0 && |y| > 0 && (x[0] < y[0] || (x[0] == y[0] && LexLess(x[1..], y[1..])))
  }

  /** A digit string of length k denotes a number below 10^k. */
  lemma {:induction false} DigitsValueBound(s: string)
    requires AllDigits(s)
    ensures DigitsValue(s) < Pow10(|s|)
  {
    if s != [] {
      DigitsValueBound(s[..|s| - 1]);
    }
  }

  /** The value of a digit string read from its first digit. */
  lemma {:induction false} DigitsValueFront(s: string)
    requires AllDigits(s) && |s| > 0
    ensures DigitsValue(s) == DigitOf(s[0]) * Pow10(|s| - 1) + DigitsValue(s[1..])
  {
    if |s| > 1 {
      var init := s[..|s| - 1];
      var d, p, rest, last := DigitOf(s[0]), Pow10(|s| - 2), DigitsValue(init[1..]), DigitOf(s[|s| - 1]);
      assert DigitsValue(init) == d * p + rest by {
        DigitsValueFront(init);
      }
      assert DigitsValue(s[1..]) == rest * 10 + last by {
        assert init[1..] == s[1..][..|s| - 2];
      }
      assert Pow10(|s| - 1) == 10 * p;
      ShiftDigit(d, p, rest, last);
    } else {
      assert s[..0] == [];
      assert s[1..] == [];
    }
  }

  lemma ShiftDigit(d: nat, p: nat, rest: nat, last: nat)
    ensures (d * p + rest) * 10 + last == d * (10 * p) + (rest * 10 + last)
  {
  }

  /** Comparing two numbers written as a leading digit times `p` plus a
      remainder below `p`: the smaller has the smaller or equal leading digit,
      and with equal leading digits the smaller remainder. */
  lemma LeadingDigitOrder(dx: nat, dy: nat, tx: nat, ty: nat, p: nat)
    requires tx < p && ty < p
    requires dx * p + tx < dy * p + ty
    ensures dx <= dy
    ensures dx == dy ==> tx < ty
  {
    assert dx * p < (dy + 1) * p;
    MulCancel(dx, dy + 1, p);
  }

  lemma MulCancel(a: nat, b: nat, p: nat)
    requires a * p < b * p
    ensures a < b
  {
  }

  /** Among digit strings of one length, numeric order is lexicographic order. */
  lemma {:induction false} SmallerValueLexLess(x: string, y: string)
    requires AllDigits(x) && AllDigits(y) && |x| == |y|
    requires DigitsValue(x) < DigitsValue(y)
    ensures LexLess(x, y)
    decreases |x|
  {
    DigitsValueFront(x);
    DigitsValueFront(y);
    DigitsValueBound(x[1..]);
    DigitsValueBound(y[1..]);
    LeadingDigitOrder(DigitOf(x[0]), DigitOf(y[0]), DigitsValue(x[1..]), DigitsValue(y[1..]), Pow10(|x| - 1));
    if x[0] == y[0] {
      SmallerValueLexLess(x[1..], y[1..]);
    }
  }

  /** Padded ordinals below 10^10 sort in numeric order, so directory and file
      listings come out in member, sequence and canvas order. */
  lemma Pad10Sorts(a: nat, b: nat)
    requires a < b < Pow10(10)
    ensures LexLess(Pad10(a), Pad10(b))
  {
    Pad10Width(a);
    Pad10Width(b);
    Pad10Value(a);
    Pad10Value(b);
    SmallerValueLexLess(Pad10(a), Pad10(b));
  }

  // ---------------------------------------------------------------------
  // File names

  /** The name of the file harvested for canvas `c` of sequence `s`. */
  function FileName(s: nat, c: nat, ext: string): string
  {
    Pad10(s) + "-" + Pad10(c) + "." + ext
  }

  predicate Lacks(s: string, sep: char)
  {
    forall i :: 0 <= i < |s| ==> s[i] != sep
  }

  lemma DigitsLack(s: string, sep: char)
    requires AllDigits(s) && !IsDigit(sep)
    ensures Lacks(s, sep)
  {
  }

  /** Splitting at the first occurrence of a separator absent from both heads. */
  lemma SplitAt(a: string, x: string, b: string, y: string, sep: char)
    requires Lacks(a, sep) && Lacks(b, sep)
    requires a + [sep] + x == b + [sep] + y
    ensures a == b && x == y
  {
    var u := a + [sep] + x;
    assert forall i :: 0 <= i < |a| ==> u[i] == a[i];
    assert forall i :: 0 <= i < |b| ==> u[i] == b[i];
    assert u[|a|] == sep && u[|b|] == sep;
    assert |a| == |b|;
    assert a == u[..|a|] && b == u[..|b|];
    assert x == u[|a| + 1..] && y == u[|b| + 1..];
  }

  /** Distinct (sequence, canvas) positions give distinct file names. */
  lemma FileNameInjective(s1: nat, c1: nat, s2: nat, c2: nat, ext: string)
    requires FileName(s1, c1, ext) == FileName(s2, c2, ext)
    ensures s1 == s2 && c1 == c2
  {
    var p1, p2, q1, q2 := Pad10(s1), Pad10(s2), Pad10(c1), Pad10(c2);
    Pad10Digits(s1);
    Pad10Digits(s2);
    Pad10Digits(c1);
    Pad10Digits(c2);
    DigitsLack(p1, '-');
    DigitsLack(p2, '-');
    DigitsLack(q1, '.');
    DigitsLack(q2, '.');
    SplitTwice(p1, q1, p2, q2, ext, '-', '.');
    Pad10Injective(s1, s2);
    Pad10Injective(c1, c2);
  }

  /** Two heads, each free of its own separator, are recovered from
      `a + [x] + b + [y] + e`. */
  lemma SplitTwice(a1: string, b1: string, a2: string, b2: string, e: string, x: char, y: char)
    requires Lacks(a1, x) && Lacks(a2, x) && Lacks(b1, y) && Lacks(b2, y)
    requires a1 + [x] + b1 + [y] + e == a2 + [x] + b2 + [y] + e
    ensures a1 == a2 && b1 == b2
  {
    var rest1, rest2 := b1 + [y] + e, b2 + [y] + e;
    assert a1 + [x] + b1 + [y] + e == a1 + [x] + rest1;
    assert a2 + [x] + b2 + [y] + e == a2 + [x] + rest2;
    SplitAt(a1, rest1, a2, rest2, x);
    SplitAt(b1, e, b2, e, y);
  }

  // ---------------------------------------------------------------------
  // Directory names

  /** The characters the label sanitiser keeps: `[a-zA-Z0-9_-]`. */
  predicate Allowed(ch: char)
  {
    ('a' <= ch <= 'z') || ('A' <= ch <= 'Z') || ('0' <= ch <= '9') || ch == '-' || ch == '_'
  }

  predicate AllAllowed(s: string)
  {
    forall i :: 0 <= i < |s| ==> Allowed(s[i])
  }

  predicate AllDisallowed(s: string)
  {
    forall i :: 0 <= i < |s| ==> !Allowed(s[i])
  }

  /** Drops the run of disallowed characters at the front. */
  function SkipRun(s: string): (r: string)
    ensures |r| <= |s|
    ensures r == [] || Allowed(r[0])
  {
    if s != [] && !Allowed(s[0]) then SkipRun(s[1..]) else s
  }

  /** Replaces every maximal run of characters outside `[a-zA-Z0-9_-]` by one '_'. */
  function Sanitize(s: string): (r: string)
    ensures |r| <= |s|
    decreases |s|
  {
    if s == [] then []
    else if Allowed(s[0]) then [s[0]] + Sanitize(s[1..])
    else "_" + Sanitize(SkipRun(s[1..]))
  }

  /** Only characters of `[a-zA-Z0-9_-]` come out. */
  lemma {:induction false} SanitizeAllowed(s: string)
    ensures AllAllowed(Sanitize(s))
    decreases |s|
  {
    if s != [] {
      if Allowed(s[0]) {
        SanitizeAllowed(s[1..]);
      } else {
        SanitizeAllowed(SkipRun(s[1..]));
      }
    }
  }

  /** A label made only of allowed characters is kept as it is. */
  lemma {:induction false} SanitizeKeepsAllowed(s: string)
    requires AllAllowed(s)
    ensures Sanitize(s) == s
  {
    if s != [] {
      SanitizeKeepsAllowed(s[1..]);
    }
  }

  /** Sanitising twice is sanitising once. */
  lemma SanitizeIdempotent(s: string)
    ensures Sanitize(Sanitize(s)) == Sanitize(s)
  {
    SanitizeAllowed(s);
    SanitizeKeepsAllowed(Sanitize(s));
  }

  /** A run of disallowed characters followed by an allowed one (or by nothing)
      becomes exactly one '_'. */
  lemma {:induction false} SanitizeRun(run: string, y: string)
    requires run != [] && AllDisallowed(run)
    requires y == [] || Allowed(y[0])
    ensures Sanitize(run + y) == "_" + Sanitize(y)
  {
    SkipRunPrefix(run[1..], y);
    assert (run + y)[1..] == run[1..] + y;
  }

  lemma {:induction false} SkipRunPrefix(run: string, y: string)
    requires AllDisallowed(run)
    requires y == [] || Allowed(y[0])
    ensures SkipRun(run + y) == y
  {
    if run != [] {
      assert (run + y)[1..] == run[1..] + y;
      SkipRunPrefix(run[1..], y);
    } else {
      assert run + y == y;
    }
  }

  /** Skipping a leading run stops before any allowed character. */
  lemma {:induction false} SkipRunConcat(z: string, y: string)
    requires SkipRun(z) != []
    ensures SkipRun(z + y) == SkipRun(z) + y
  {
    if !Allowed(z[0]) {
      assert (z + y)[1..] == z[1..] + y;
      SkipRunConcat(z[1..], y);
    }
  }

  /** Sanitising works piecewise across a boundary that follows an allowed
      character. */
  lemma {:induction false} SanitizeConcat(x: string, y: string)
    requires x == [] || Allowed(x[|x| - 1])
    ensures Sanitize(x + y) == Sanitize(x) + Sanitize(y)
    decreases |x|
  {
    if x == [] {
      assert x + y == y;
    } else {
      var tail := x[1..];
      assert (x + y)[0] == x[0];
      assert (x + y)[1..] == tail + y;
      if Allowed(x[0]) {
        assert Sanitize(x + y) == [x[0]] + Sanitize(tail + y);
        SanitizeConcat(tail, y);
      } else {
        assert Sanitize(x + y) == "_" + Sanitize(SkipRun(tail + y));
        SkipRunKeepsLast(tail);
        var rest := SkipRun(tail);
        SkipRunConcat(tail, y);
        SanitizeConcat(rest, y);
      }
    }
  }

  /** A run that ends in an allowed character is not skipped to the end. */
  lemma {:induction false} SkipRunKeepsLast(s: string)
    requires s != [] && Allowed(s[|s| - 1])
    ensures SkipRun(s) != [] && SkipRun(s)[|SkipRun(s)| - 1] == s[|s| - 1]
  {
    if !Allowed(s[0]) {
      assert |s| > 1;
      assert s[1..][|s| - 2] == s[|s| - 1];
      SkipRunKeepsLast(s[1..]);
    }
  }

  /** The collapsing rule in full: a maximal disallowed run between two allowed
      stretches becomes a single '_' and nothing else changes. */
  lemma CollapseRun(x: string, run: string, y: string)
    requires x == [] || Allowed(x[|x| - 1])
    requires run != [] && AllDisallowed(run)
    requires y == [] || Allowed(y[0])
    ensures Sanitize(x + run + y) == Sanitize(x) + "_" + Sanitize(y)
  {
    var ry := run + y;
    SanitizeRun(run, y);
    SanitizeConcat(x, ry);
    Assoc3(x, run, y);
  }

  lemma Assoc3(x: string, run: string, y: string)
    ensures x + run + y == x + (run + y)
  {
  }

  /** The characters other than '_' that the sanitiser keeps. */
  function Kept(s: string): (k: string)
    ensures forall i :: 0 <= i < |k| ==> Allowed(k[i]) && k[i] != '_'
  {
    if s == [] then []
    else if Allowed(s[0]) && s[0] != '_' then [s[0]] + Kept(s[1..])
    else Kept(s[1..])
  }

  lemma {:induction false} KeptSkipRun(s: string)
    ensures Kept(SkipRun(s)) == Kept(s)
  {
    if s != [] && !Allowed(s[0]) {
      KeptSkipRun(s[1..]);
    }
  }

  /** Every letter, digit and '-' of the label survives, in order, and no
      other character but '_' appears in the directory name. */
  lemma {:induction false} SanitizeKeepsOrder(s: string)
    ensures AllAllowed(Sanitize(s))
    ensures Kept(Sanitize(s)) == Kept(s)
    decreases |s|
  {
    SanitizeAllowed(s);
    if s != [] {
      if Allowed(s[0]) {
        SanitizeKeepsOrder(s[1..]);
        assert ([s[0]] + Sanitize(s[1..]))[1..] == Sanitize(s[1..]);
      } else {
        SanitizeKeepsOrder(SkipRun(s[1..]));
        KeptSkipRun(s[1..]);
        assert ("_" + Sanitize(SkipRun(s[1..])))[1..] == Sanitize(SkipRun(s[1..]));
      }
    }
  }

  /** The directory made for the collection member with ordinal `i`. */
  function DirName(i: nat, labelText: string): string
  {
    Pad10(i) + "-" + Sanitize(labelText)
  }

  /** Sibling directories never collide: the ordinal decides the name's head. */
  lemma DirNameInjective(i: nat, a: string, j: nat, b: string)
    requires DirName(i, a) == DirName(j, b)
    ensures i == j && Sanitize(a) == Sanitize(b)
  {
    Pad10Digits(i);
    Pad10Digits(j);
    DigitsLack(Pad10(i), '-');
    DigitsLack(Pad10(j), '-');
    assert DirName(i, a) == Pad10(i) + ['-'] + Sanitize(a);
    assert DirName(j, b) == Pad10(j) + ['-'] + Sanitize(b);
    SplitAt(Pad10(i), Sanitize(a), Pad10(j), Sanitize(b), '-');
    Pad10Injective(i, j);
  }

  /** A run of two spaces collapses to one '_'. */
  lemma SanitizeExample()
    ensures Sanitize("A  B") == "A_B"
  {
    assert "A  B"[1..] == "  B";
    assert "  B"[1..] == " B";
    assert " B"[1..] == "B";
    assert SkipRun(" B") == "B";
    assert Sanitize("B") == "B";
    assert Sanitize("  B") == "_B";
  }

  /** A word of allowed characters followed by a run is the word and one '_'. */
  lemma CollapseAfterWord(word: string, run: string, y: string)
    requires AllAllowed(word)
    requires run != [] && AllDisallowed(run)
    requires y == [] || Allowed(y[0])
    ensures Sanitize(word + run + y) == word + "_" + Sanitize(y)
  {
    CollapseRun(word, run, y);
    SanitizeKeepsAllowed(word);
  }

  /** The label "Vol. 1/2!" sanitises to "Vol_1_2_": the run ". " is one '_',
      and so are "/" and "!". */
  lemma SanitizeLabelExample(labelText: string)
    requires labelText == "Vol. 1/2!"
    ensures Sanitize(labelText) == "Vol_1_2_"
  {
    var head, run, tail := "Vol", ". ", "1/2!";
    assert labelText == head + run + tail;
    assert AllAllowed(head) by {
      assert Allowed(head[0]) && Allowed(head[1]) && Allowed(head[2]);
    }
    CollapseAfterWord(head, run, tail);
    SanitizeTailExample(tail);
    assert head + "_" + "1_2_" == "Vol_1_2_";
  }

  lemma SanitizeTailExample(tail: string)
    requires tail == "1/2!"
    ensures Sanitize(tail) == "1_2_"
  {
    var rest := "2!";
    assert tail == "1" + "/" + rest;
    CollapseAfterWord("1", "/", rest);
    assert rest == "2" + "!" + "";
    CollapseAfterWord("2", "!", "");
  }

  /** The ordinal 3 is padded to "0000000003". */
  lemma Pad10Example()
    ensures Pad10(3) == "0000000003"
  {
    Pad10Shape(3);
    assert Decimal(3) == "3";
    assert Zeros(9) + "3" == "0000000003";
  }

  /** Member 3 labelled "Vol. 1/2!" goes to "0000000003-Vol_1_2_". */
  lemma DirNameExample(labelText: string)
    requires labelText == "Vol. 1/2!"
    ensures DirName(3, labelText) == "0000000003-Vol_1_2_"
  {
    SanitizeLabelExample(labelText);
    Pad10Example();
  }
}
