/** What the database makes of the patterns the layer binds: SQL `LIKE`,
    where `%` matches any run of characters and `_` any single character,
    and `ILIKE`, the same after folding case. The layer wraps filter values
    as `%value%` so that, for a value without wildcard characters, a filter
    is a case-insensitive substring test. Case folding is ASCII only, as in
    the rest of the model; the escape character is not modelled. */
module SqlPattern {
  import opened Js

  /** `s LIKE p` */
  function Like(p: string, s: string): bool
    decreases |p| + |s|
  {
    if p == [] then s == []
    else if p[0] == '%' then Like(p[1..], s) || (s != [] && Like(p, s[1..]))
    else if p[0] == '_' then s != [] && Like(p[1..], s[1..])
    else s != [] && s[0] == p[0] && Like(p[1..], s[1..])
  }

  /** `s ILIKE p` */
  function ILike(p: string, s: string): bool {
    Like(Lower(p), Lower(s))
  }

  /** The `%value%` wrapping the layer binds for a filter or search value. */
  function Wrap(v: string): string {
    "%" + v + "%"
  }

  /** `v` holds neither wildcard nor Postgres's default escape character
      `\`, so the pattern `%v%` means the same with or without escaping. */
  predicate NoWildcards(v: string) {
    forall i :: 0 <= i < |v| ==> v[i] != '%' && v[i] != '_' && v[i] != '\\'
  }

  /** `v` occurs in `s` as a contiguous substring. */
  ghost predicate Contains(s: string, v: string) {
    exists k :: OccursAt(s, v, k)
  }

  predicate OccursAt(s: string, v: string, k: int) {
    0 <= k <= |s| - |v| && s[k..k + |v|] == v
  }

  lemma {:induction false} PercentMatchesAll(s: string)
    ensures Like("%", s)
    decreases |s|
  {
    if s != [] {
      PercentMatchesAll(s[1..]);
    }
  }

  /** A literal followed by `%` matches exactly the strings it begins. */
  lemma {:induction false} LiteralThenPercent(v: string, s: string)
    requires NoWildcards(v)
    ensures Like(v + "%", s) <==> |v| <= |s| && s[..|v|] == v
    decreases |v|
  {
    if v == [] {
      PercentMatchesAll(s);
      assert v + "%" == "%";
    } else {
      assert (v + "%")[0] == v[0];
      assert (v + "%")[1..] == v[1..] + "%";
      assert NoWildcards(v[1..]) by {
        forall i | 0 <= i < |v[1..]| ensures v[1..][i] != '%' && v[1..][i] != '_' && v[1..][i] != '\\' {
          assert v[1..][i] == v[i + 1];
        }
      }
      if s != [] {
        LiteralThenPercent(v[1..], s[1..]);
        if |v| <= |s| && s[..|v|] == v {
          assert s[1..][..|v[1..]|] == v[1..];
        }
        if s[0] == v[0] && |v[1..]| <= |s[1..]| && s[1..][..|v[1..]|] == v[1..] {
          assert s[..|v|] == [s[0]] + s[1..][..|v[1..]|];
          assert v == [v[0]] + v[1..];
        }
      }
    }
  }

  /** A leading `%` lets the rest of the pattern match any suffix. */
  lemma {:induction false} PercentThenPattern(q: string, s: string)
    ensures Like("%" + q, s) <==> exists k :: 0 <= k <= |s| && Like(q, s[k..])
    decreases |s|
  {
    assert ("%" + q)[0] == '%' && ("%" + q)[1..] == q;
    if s == [] {
      if exists k :: 0 <= k <= |s| && Like(q, s[k..]) {
        var k :| 0 <= k <= |s| && Like(q, s[k..]);
        assert s[k..] == s;
      }
      assert s[0..] == s;
    } else {
      PercentThenPattern(q, s[1..]);
      if Like("%" + q, s) {
        if Like(q, s) {
          assert s[0..] == s;
        } else {
          var k :| 0 <= k <= |s[1..]| && Like(q, s[1..][k..]);
          assert s[1..][k..] == s[k + 1..];
        }
      }
      if exists k :: 0 <= k <= |s| && Like(q, s[k..]) {
        var k :| 0 <= k <= |s| && Like(q, s[k..]);
        if k == 0 {
          assert s[k..] == s;
        } else {
          assert s[1..][k - 1..] == s[k..];
        }
      }
    }
  }

  /** `s LIKE '%v%'` is a substring test when `v` has no wildcards. */
  lemma WrapIsSubstringTest(v: string, s: string)
    requires NoWildcards(v)
    ensures Like(Wrap(v), s) <==> Contains(s, v)
  {
    assert Wrap(v) == "%" + (v + "%");
    PercentThenPattern(v + "%", s);
    if Like(Wrap(v), s) {
      var k :| 0 <= k <= |s| && Like(v + "%", s[k..]);
      LiteralThenPercent(v, s[k..]);
      assert s[k..][..|v|] == s[k..k + |v|];
      assert OccursAt(s, v, k);
    }
    if Contains(s, v) {
      var k :| OccursAt(s, v, k);
      LiteralThenPercent(v, s[k..]);
      assert s[k..][..|v|] == s[k..k + |v|];
    }
  }

  /** `s ILIKE '%v%'` is a case-insensitive substring test when `v` has no
      wildcards. */
  lemma ILikeWrapIsCaseInsensitiveSubstringTest(v: string, s: string)
    requires NoWildcards(v)
    ensures ILike(Wrap(v), s) <==> Contains(Lower(s), Lower(v))
  {
    assert Lower(Wrap(v)) == Wrap(Lower(v));
    assert NoWildcards(Lower(v));
    WrapIsSubstringTest(Lower(v), Lower(s));
  }

  /** The wrapping does not escape the value: an `_` in a filter value
      matches any character, so `'%a_b%'` accepts "axb", which does not
      contain "a_b". */
  lemma UnderscoreInValueIsWildcard()
    ensures Like(Wrap("a_b"), "axb")
    ensures !Contains("axb", "a_b")
  {
    assert Wrap("a_b") == "%a_b%";
    assert Like("%", "");
    assert Like("%a_b%", "axb") by {
      assert "%a_b%"[1..] == "a_b%";
      assert "a_b%"[1..] == "_b%";
      assert "_b%"[1..] == "b%";
      assert "b%"[1..] == "%";
      assert "axb"[1..] == "xb" && "xb"[1..] == "b" && "b"[1..] == "";
      assert Like("%", "");
      assert Like("b%", "b");
      assert Like("_b%", "xb");
      assert Like("a_b%", "axb");
    }
    assert !OccursAt("axb", "a_b", 0) by {
      assert "axb"[0..3][1] == 'x';
    }
  }
}
