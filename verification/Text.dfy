/** String helpers the scripts get from Python: case folding, path segments, ordering. */
module Text {

  function LowerChar(c: char): char {
    if 'A' <= c <= 'Z' then c - 'A' + 'a' else c
  }

  function UpperChar(c: char): char {
    if 'a' <= c <= 'z' then c - 'a' + 'A' else c
  }

  /** ASCII `str.lower()`. */
  function Lower(s: string): string {
    seq(|s|, i requires 0 <= i < |s| => LowerChar(s[i]))
  }

  /** ASCII `str.upper()`. */
  function Upper(s: string): string {
    seq(|s|, i requires 0 <= i < |s| => UpperChar(s[i]))
  }

  predicate IsSpace(c: char) {
    c == ' ' || c == '\t' || c == '\n' || c == '\r'
  }

  /** `s.strip()` */
  function Strip(s: string): string {
    if s != "" && IsSpace(s[0]) then Strip(s[1..])
    else if s != "" && IsSpace(s[|s| - 1]) then Strip(s[..|s| - 1])
    else s
  }

  /** `needle in hay` */
  predicate Contains(hay: string, needle: string) {
    needle <= hay || (hay != "" && Contains(hay[1..], needle))
  }

  /** `s.rstrip("/")` */
  function StripSlashes(s: string): string {
    if s != "" && s[|s| - 1] == '/' then StripSlashes(s[..|s| - 1]) else s
  }

  /** `s.split("/")[-1]` */
  function AfterLastSlash(s: string): string {
    if s == "" || s[|s| - 1] == '/' then "" else AfterLastSlash(s[..|s| - 1]) + [s[|s| - 1]]
  }

  function LastSegment(s: string): string {
    AfterLastSlash(StripSlashes(s))
  }

  /** Python's ordering of strings: the first difference decides, and a proper prefix comes first. */
  predicate StringLe(a: string, b: string) {
    a == "" || (b != "" && (a[0] < b[0] || (a[0] == b[0] && StringLe(a[1..], b[1..]))))
  }

  lemma {:induction false} StringLeTotal(a: string, b: string)
    ensures StringLe(a, b) || StringLe(b, a)
  {
    if a != "" && b != "" && a[0] == b[0] {
      StringLeTotal(a[1..], b[1..]);
    }
  }

  lemma {:induction false} StringLeTransitive(a: string, b: string, c: string)
    requires StringLe(a, b) && StringLe(b, c)
    ensures StringLe(a, c)
  {
    if a != "" && a[0] == b[0] == c[0] {
      StringLeTransitive(a[1..], b[1..], c[1..]);
    }
  }

  lemma {:induction false} StringLeAntisymmetric(a: string, b: string)
    requires StringLe(a, b) && StringLe(b, a)
    ensures a == b
  {
    if a != "" {
      StringLeAntisymmetric(a[1..], b[1..]);
      assert a == [a[0]] + a[1..] && b == [b[0]] + b[1..];
    }
  }

  // ------------------------------------------------------- what they compute

  /** Text is contained when it stands somewhere between a beginning and an end. */
  lemma {:induction false} ContainsIs(hay: string, needle: string)
    ensures Contains(hay, needle) <==> exists a, b :: hay == a + needle + b
  {
    if needle <= hay {
      assert hay == "" + needle + hay[|needle|..];
    } else if hay != "" {
      ContainsIs(hay[1..], needle);
      if Contains(hay[1..], needle) {
        var a, b :| hay[1..] == a + needle + b;
        assert hay == ([hay[0]] + a) + needle + b;
      }
      if exists a, b :: hay == a + needle + b {
        var a, b :| hay == a + needle + b;
        assert a == "" ==> needle <= hay;
        assert hay[1..] == a[1..] + needle + b;
      }
    }
  }

  predicate Blank(s: string) {
    forall c :: c in s ==> c in " \t\n\r"
  }

  /** Stripping takes blanks off both ends, and leaves none there. */
  lemma {:induction false} StripIs(s: string) returns (a: string, b: string)
    ensures s == a + Strip(s) + b && Blank(a) && Blank(b)
    ensures Strip(s) != "" ==> Strip(s)[0] !in " \t\n\r" && Strip(s)[|Strip(s)| - 1] !in " \t\n\r"
    decreases |s|
  {
    if s != "" && IsSpace(s[0]) {
      a, b := StripIs(s[1..]);
      a := [s[0]] + a;
    } else if s != "" && IsSpace(s[|s| - 1]) {
      a, b := StripIs(s[..|s| - 1]);
      b := b + [s[|s| - 1]];
    } else {
      a, b := "", "";
    }
  }

  predicate Slashes(s: string) {
    forall c :: c in s ==> c == '/'
  }

  lemma {:induction false} StripSlashesIs(s: string) returns (b: string)
    ensures s == StripSlashes(s) + b && Slashes(b)
    ensures StripSlashes(s) != "" ==> StripSlashes(s)[|StripSlashes(s)| - 1] != '/'
    decreases |s|
  {
    b := "";
    if s != "" && s[|s| - 1] == '/' {
      b := StripSlashesIs(s[..|s| - 1]);
      b := b + "/";
    }
  }

  lemma {:induction false} AfterLastSlashIs(s: string) returns (a: string)
    ensures s == a + AfterLastSlash(s) && '/' !in AfterLastSlash(s)
    ensures a == "" || a[|a| - 1] == '/'
    decreases |s|
  {
    a := s;
    if s != "" && s[|s| - 1] != '/' {
      a := AfterLastSlashIs(s[..|s| - 1]);
    }
  }

  /** The last segment is what stands, free of slashes, between a slash or the start and the slashes at the end. */
  lemma LastSegmentIs(s: string) returns (a: string, b: string)
    ensures s == a + LastSegment(s) + b && '/' !in LastSegment(s)
    ensures (a == "" || a[|a| - 1] == '/') && Slashes(b)
    ensures LastSegment(s) == "" ==> Slashes(s)
  {
    b := StripSlashesIs(s);
    a := AfterLastSlashIs(StripSlashes(s));
  }

  /** Lowering moves the capitals of ASCII, 65 to 90, up by 32 and leaves every other character. */
  lemma LowerIs(s: string)
    ensures |Lower(s)| == |s|
    ensures forall i :: 0 <= i < |s| ==>
      Lower(s)[i] as int == if 65 <= s[i] as int <= 90 then s[i] as int + 32 else s[i] as int
  {
  }

  /** The two case foldings take the same texts to be equal. */
  lemma FoldingsAgree(s: string, t: string)
    ensures Lower(s) == Lower(t) <==> Upper(s) == Upper(t)
  {
    if Lower(s) == Lower(t) {
      forall i | 0 <= i < |s| ensures Upper(s)[i] == Upper(t)[i] {
        assert Lower(s)[i] == Lower(t)[i];
      }
    }
    if Upper(s) == Upper(t) {
      forall i | 0 <= i < |s| ensures Lower(s)[i] == Lower(t)[i] {
        assert Upper(s)[i] == Upper(t)[i];
      }
    }
  }

  /** `a` is a beginning of `b`, or smaller at the first difference. */
  ghost predicate Before(a: string, b: string) {
    a <= b || exists k :: 0 <= k < |a| && k < |b| && a[..k] == b[..k] && a[k] < b[k]
  }

  lemma {:induction false} StringLeIs(a: string, b: string)
    ensures StringLe(a, b) <==> Before(a, b)
  {
    if a != "" && b != "" {
      StringLeIs(a[1..], b[1..]);
      if a[0] == b[0] {
        assert a == [a[0]] + a[1..] && b == [b[0]] + b[1..];
        LaterDifference(a, b);
      } else if a[0] < b[0] {
        assert a[..0] == b[..0];
      }
    }
  }

  lemma LaterDifference(a: string, b: string)
    requires a != "" && b != "" && a[0] == b[0]
    ensures Before(a, b) <==> Before(a[1..], b[1..])
  {
    assert a == [a[0]] + a[1..] && b == [b[0]] + b[1..];
    if k :| 0 <= k < |a| && k < |b| && a[..k] == b[..k] && a[k] < b[k] {
      assert a[1..][..k - 1] == a[..k][1..] && b[1..][..k - 1] == b[..k][1..];
      assert a[1..][k - 1] < b[1..][k - 1];
    }
    if k :| 0 <= k < |a[1..]| && k < |b[1..]| && a[1..][..k] == b[1..][..k] && a[1..][k] < b[1..][k] {
      assert a[..k + 1] == [a[0]] + a[1..][..k] && b[..k + 1] == [b[0]] + b[1..][..k];
      assert a[k + 1] < b[k + 1];
    }
  }
}
