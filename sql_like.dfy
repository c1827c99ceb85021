/**
 * The title filter of `list_notes` (backend/app/main.py), `Note.title.ilike(f'%{q}%')`.
 * On SQLite, the configured database, SQLAlchemy renders `ilike` as
 * `lower(title) LIKE lower(pattern)`; `lower` folds ASCII letters only, and
 * LIKE without an ESCAPE clause reads `%` as any run of characters and `_` as
 * exactly one character. The text of the query is put into the pattern as it
 * is, so its own `%` and `_` act as wildcards.
 */
module SqlLike {
  import Chars

  /** `s LIKE p` on operands that are already case-folded. */
  function Like(s: string, p: string): bool
    decreases |p|, |s|
  {
    if p == [] then s == []
    else if p[0] == '%' then Like(s, p[1..]) || (s != [] && Like(s[1..], p))
    else s != [] && (p[0] == '_' || p[0] == s[0]) && Like(s[1..], p[1..])
  }

  /** `s ILIKE p` as SQLite evaluates it. */
  function ILike(s: string, p: string): bool {
    Like(Chars.AsciiLower(s), Chars.AsciiLower(p))
  }

  /** The pattern `%q%` that `list_notes` builds from the query text. */
  function ContainsPattern(q: string): string {
    "%" + q + "%"
  }

  predicate NoWildcards(q: string) {
    forall i :: 0 <= i < |q| ==> q[i] != '%' && q[i] != '_'
  }

  lemma {:induction false} LikePercent(s: string)
    ensures Like(s, "%")
  {
    if s != [] {
      LikePercent(s[1..]);
    }
  }

  /** Without wildcards, `q%` matches exactly the texts that start with `q`. */
  lemma {:induction false} LikePrefix(s: string, q: string)
    requires NoWildcards(q)
    ensures Like(s, q + "%") <==> q <= s
  {
    if q == [] {
      assert q + "%" == "%";
      LikePercent(s);
    } else {
      assert (q + "%")[1..] == q[1..] + "%";
      if s != [] {
        LikePrefix(s[1..], q[1..]);
        assert q <= s <==> q[0] == s[0] && q[1..] <= s[1..];
      }
    }
  }

  /** A leading `%` lets the rest of the pattern match any suffix. */
  lemma {:induction false} LikeLeadingPercent(s: string, r: string)
    ensures Like(s, "%" + r) <==> exists i :: 0 <= i <= |s| && Like(s[i..], r)
  {
    var p := "%" + r;
    assert p[1..] == r;
    if s == [] {
      assert s[0..] == s;
    } else {
      LikeLeadingPercent(s[1..], r);
      if Like(s, p) {
        if Like(s, r) {
          assert s[0..] == s;
        } else {
          var j :| 0 <= j <= |s[1..]| && Like(s[1..][j..], r);
          assert s[1..][j..] == s[j + 1..];
        }
      }
      if exists i :: 0 <= i <= |s| && Like(s[i..], r) {
        var i :| 0 <= i <= |s| && Like(s[i..], r);
        if i == 0 {
          assert s[0..] == s;
        } else {
          assert s[1..][i - 1..] == s[i..];
        }
      }
    }
  }

  /** Without wildcards, `%q%` matches exactly the texts that contain `q`. */
  lemma {:induction false} LikeContains(s: string, q: string)
    requires NoWildcards(q)
    ensures Like(s, ContainsPattern(q)) <==> Chars.Contains(s, q)
  {
    assert ContainsPattern(q) == "%" + (q + "%");
    LikeLeadingPercent(s, q + "%");
    forall i | 0 <= i <= |s|
      ensures Like(s[i..], q + "%") <==> q <= s[i..]
    {
      LikePrefix(s[i..], q);
    }
  }

  /**
   * For a query without `%` or `_`, the `ilike` filter keeps exactly the
   * titles that contain the query, ignoring ASCII case.
   */
  lemma TitleFilterIsSubstring(title: string, q: string)
    requires NoWildcards(q)
    ensures ILike(title, ContainsPattern(q)) <==> Chars.Contains(Chars.AsciiLower(title), Chars.AsciiLower(q))
  {
    var lq := Chars.AsciiLower(q);
    assert Chars.AsciiLower(ContainsPattern(q)) == ContainsPattern(lq);
    LikeContains(Chars.AsciiLower(title), lq);
  }

  /** A query of `%` alone keeps every title. */
  lemma PercentQueryKeepsAll(title: string)
    ensures ILike(title, ContainsPattern("%"))
  {
    var lt := Chars.AsciiLower(title);
    assert Chars.AsciiLower(ContainsPattern("%")) == "%%%";
    assert "%%%"[1..] == "%%";
    assert "%%"[1..] == "%";
    LikePercent(lt);
  }
}
