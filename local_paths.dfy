/** The string rewrite behind `FireflowerS3Target.local_path`: removing the
    `s3://` scheme with `str.replace`, then a POSIX `os.path.join` onto the
    local root. */
module LocalPaths {

  const Scheme: string := "s3://"

  /** Some occurrence of the scheme starts at position `i` of `s`. */
  predicate SchemeAt(s: string, i: int) {
    0 <= i && i + |Scheme| <= |s| && s[i..i + |Scheme|] == Scheme
  }

  ghost predicate ContainsScheme(s: string) {
    exists i :: SchemeAt(s, i)
  }

  /** `s.replace("s3://", "")`: one left-to-right pass that drops every
      non-overlapping occurrence it meets. Each drop shortens the string by
      the length of the scheme. */
  function StripScheme(s: string): (r: string)
    ensures |r| <= |s|
    ensures (|s| - |r|) % |Scheme| == 0
    decreases |s|
  {
    if s == [] then []
    else if Scheme <= s then StripScheme(s[|Scheme|..])
    else [s[0]] + StripScheme(s[1..])
  }

  lemma SchemeAtStart(s: string)
    ensures Scheme <= s <==> SchemeAt(s, 0)
  {
  }

  lemma {:induction false} NoSchemeIsFixpoint(s: string)
    requires !ContainsScheme(s)
    ensures StripScheme(s) == s
    decreases |s|
  {
    if s != [] {
      SchemeAtStart(s);
      forall i | SchemeAt(s[1..], i) ensures SchemeAt(s, i + 1) {
        assert s[1..][i..i + |Scheme|] == s[i + 1..i + 1 + |Scheme|];
      }
      NoSchemeIsFixpoint(s[1..]);
    }
  }

  lemma {:induction false} SchemeShortens(s: string)
    requires ContainsScheme(s)
    ensures |StripScheme(s)| < |s|
    decreases |s|
  {
    var i :| SchemeAt(s, i);
    SchemeAtStart(s);
    if !(Scheme <= s) {
      assert SchemeAt(s[1..], i - 1) by {
        assert s[1..][i - 1..i - 1 + |Scheme|] == s[i..i + |Scheme|];
      }
      SchemeShortens(s[1..]);
    }
  }

  /** The rewrite leaves a path alone exactly when the path holds no scheme. */
  lemma StripSchemeFixpointIff(s: string)
    ensures StripScheme(s) == s <==> !ContainsScheme(s)
  {
    if ContainsScheme(s) {
      SchemeShortens(s);
    } else {
      NoSchemeIsFixpoint(s);
    }
  }

  /** A canonical URI `s3://rest` whose remainder holds no further scheme
      loses exactly its scheme. */
  lemma StripSchemeOfUri(rest: string)
    requires !ContainsScheme(rest)
    ensures StripScheme(Scheme + rest) == rest
  {
    assert Scheme <= Scheme + rest;
    assert (Scheme + rest)[|Scheme|..] == rest;
    NoSchemeIsFixpoint(rest);
  }

  /** A single pass is not idempotent: removing the inner occurrence of
      `s3:s3:////` joins its neighbours into a new `s3://`. */
  lemma StripSchemeSinglePass()
    ensures StripScheme("s3:s3:////") == Scheme
    ensures StripScheme(StripScheme("s3:s3:////")) == []
  {
    var s := "s3:s3:////";
    assert s[3] != Scheme[3];
    assert !(Scheme <= s);
    assert !(Scheme <= s[1..]);
    assert !(Scheme <= s[2..]);
    assert s[2..][1..] == "s3:////";
    assert Scheme <= s[3..];
    assert s[3..][|Scheme|..] == "//";
    assert !(Scheme <= "//") && !(Scheme <= "/");
    assert StripScheme("//") == "//";
    assert Scheme <= Scheme;
  }

  predicate IsAbsolute(p: string) {
    p != [] && p[0] == '/'
  }

  /** `posixpath.join(a, b)`: an absolute `b` replaces `a`; otherwise `b` is
      appended after a single `/`, added only when `a` is non-empty and does
      not already end in one. */
  function PosixJoin(a: string, b: string): (r: string)
    ensures IsAbsolute(b) ==> r == b
    ensures !IsAbsolute(b) ==> |a| + |b| <= |r| <= |a| + |b| + 1 && a <= r && r[|r| - |b|..] == b
    ensures !IsAbsolute(b) && |r| == |a| + |b| + 1 ==> r[|a|] == '/'
    ensures !IsAbsolute(b) && a == [] ==> r == b
    ensures !IsAbsolute(b) && a != [] ==>
      && |r| == |a| + |b| + (if a[|a| - 1] == '/' then 0 else 1)
      && r[|r| - |b| - 1] == '/'
  {
    if IsAbsolute(b) then b
    else if a == [] || a[|a| - 1] == '/' then a + b
    else a + "/" + b
  }
}
