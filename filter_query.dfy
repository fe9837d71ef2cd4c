/**
 * The server-side filter expression built for a tag or search filter, and the
 * backslash-and-quote escaping that keeps the user's text inside its string literal.
 */
module FilterQuery {
  import opened Wrappers
  import MemoFilters

  // ---------------------------------------------------------------------------
  // String.replace on single characters

  /** `s.replace(c, rep)`: every occurrence of `c` becomes `rep`, left to right. */
  function ReplaceChar(s: string, c: char, rep: string): string {
    if s == [] then []
    else (if s[0] == c then rep else [s[0]]) + ReplaceChar(s[1..], c, rep)
  }

  /** Replacing a character that does not occur changes nothing. */
  lemma {:induction false} ReplaceCharAbsent(s: string, c: char, rep: string)
    requires c !in s
    ensures ReplaceChar(s, c, rep) == s
    decreases |s|
  {
    if s != [] {
      assert c !in s[1..] by { assert forall x :: x in s[1..] ==> x in s; }
      ReplaceCharAbsent(s[1..], c, rep);
      assert [s[0]] + s[1..] == s;
    }
  }

  /** Replacing with a single character keeps the length. */
  lemma {:induction false} ReplaceCharLength(s: string, c: char, rep: string)
    requires |rep| == 1
    ensures |ReplaceChar(s, c, rep)| == |s|
    decreases |s|
  {
    if s != [] {
      ReplaceCharLength(s[1..], c, rep);
    }
  }

  lemma {:induction false} ReplaceCharAppend(a: string, b: string, c: char, rep: string)
    ensures ReplaceChar(a + b, c, rep) == ReplaceChar(a, c, rep) + ReplaceChar(b, c, rep)
    decreases |a|
  {
    if a == [] {
      assert a + b == b;
    } else {
      assert (a + b)[0] == a[0];
      assert (a + b)[1..] == a[1..] + b;
      ReplaceCharAppend(a[1..], b, c, rep);
    }
  }

  // ---------------------------------------------------------------------------
  // Escaping

  /** Backslashes are doubled first, then every quote gets a backslash in front. */
  function Escape(s: string): string {
    ReplaceChar(ReplaceChar(s, '\\', "\\\\"), '"', "\\\"")
  }

  /** What one input character becomes. */
  function EscapeChar(c: char): (r: string)
    ensures 1 <= |r| <= 2 && r[|r| - 1] == c
    ensures |r| == 2 <==> c == '\\' || c == '"'
    ensures |r| == 2 ==> r[0] == '\\'
  {
    if c == '\\' then "\\\\" else if c == '"' then "\\\"" else [c]
  }

  /** The two passes act character by character, as if each character were escaped on its own. */
  lemma EscapeOne(c: char)
    ensures Escape([c]) == EscapeChar(c)
  {
    assert ReplaceChar([c], '\\', "\\\\") == (if c == '\\' then "\\\\" else [c]);
    if c == '\\' {
      assert '"' !in "\\\\";
      ReplaceCharAbsent("\\\\", '"', "\\\"");
    } else {
      assert ReplaceChar([c], '"', "\\\"") == (if c == '"' then "\\\"" else [c]);
    }
  }

  lemma EscapeAppend(a: string, b: string)
    ensures Escape(a + b) == Escape(a) + Escape(b)
  {
    ReplaceCharAppend(a, b, '\\', "\\\\");
    ReplaceCharAppend(ReplaceChar(a, '\\', "\\\\"), ReplaceChar(b, '\\', "\\\\"), '"', "\\\"");
  }

  lemma EscapeCons(c: char, s: string)
    ensures Escape([c] + s) == EscapeChar(c) + Escape(s)
  {
    EscapeAppend([c], s);
    EscapeOne(c);
  }

  lemma EscapeSnoc(s: string, c: char)
    ensures Escape(s + [c]) == Escape(s) + EscapeChar(c)
  {
    EscapeAppend(s, [c]);
    EscapeOne(c);
  }

  // ---------------------------------------------------------------------------
  // Undoing the escapes

  /**
   * The reading a filter parser gives a string literal's body: a backslash takes the next
   * character literally; a lone trailing backslash is malformed.
   */
  function Unescape(t: string): Option<string> {
    if t == [] then Some([])
    else if t[0] == '\\' then
      if |t| == 1 then None
      else match Unescape(t[2..])
        case None => None
        case Some(rest) => Some([t[1]] + rest)
    else match Unescape(t[1..])
      case None => None
      case Some(rest) => Some([t[0]] + rest)
  }

  /** Undoing the escapes recovers the input exactly. */
  lemma {:induction false} UnescapeEscape(s: string)
    ensures Unescape(Escape(s)) == Some(s)
    decreases |s|
  {
    if s == [] {
      assert Escape(s) == [];
    } else {
      EscapeCons(s[0], s[1..]);
      assert [s[0]] + s[1..] == s;
      var t := Escape(s);
      var e := EscapeChar(s[0]);
      UnescapeEscape(s[1..]);
      assert t == e + Escape(s[1..]);
      assert t[|e|..] == Escape(s[1..]);
      if |e| == 2 {
        assert t[2..] == Escape(s[1..]) && t[0] == '\\' && t[1] == s[0];
      } else {
        assert t[1..] == Escape(s[1..]) && t[0] == s[0];
      }
    }
  }

  /** Distinct inputs give distinct escaped strings. */
  lemma EscapeInjective(a: string, b: string)
    requires Escape(a) == Escape(b)
    ensures a == b
  {
    UnescapeEscape(a);
    UnescapeEscape(b);
  }

  // ---------------------------------------------------------------------------
  // Quotes stay inside the literal

  /** The number of backslashes directly in front of position `n`. */
  function BackslashesBefore(t: string, n: nat): (k: nat)
    requires n <= |t|
    ensures k <= n
    ensures forall i :: n - k <= i < n ==> t[i] == '\\'
  {
    if n == 0 || t[n - 1] != '\\' then 0 else 1 + BackslashesBefore(t, n - 1)
  }

  lemma {:induction false} BackslashesBeforePrefix(t: string, u: string, n: nat)
    requires n <= |t|
    ensures BackslashesBefore(t + u, n) == BackslashesBefore(t, n)
    decreases n
  {
    if n > 0 {
      assert (t + u)[n - 1] == t[n - 1];
      BackslashesBeforePrefix(t, u, n - 1);
    }
  }

  /** An escaped string never ends in an odd run of backslashes. */
  lemma {:induction false} EscapedEndsEven(s: string)
    ensures BackslashesBefore(Escape(s), |Escape(s)|) % 2 == 0
    decreases |s|
  {
    if s != [] {
      var p := s[..|s| - 1];
      var c := s[|s| - 1];
      assert p + [c] == s;
      EscapeSnoc(p, c);
      var t := Escape(p);
      var u := t + EscapeChar(c);
      if c == '\\' {
        EscapedEndsEven(p);
        assert |u| == |t| + 2 && u[|u| - 1] == '\\' && u[|u| - 2] == '\\';
        BackslashesBeforePrefix(t, EscapeChar(c), |t|);
        assert BackslashesBefore(u, |u|) == 2 + BackslashesBefore(t, |t|);
      } else {
        assert u[|u| - 1] == c;
      }
    }
  }

  /**
   * Every quote in an escaped string has an odd run of backslashes in front of it, so it
   * is escaped and cannot close the surrounding literal.
   */
  lemma {:induction false} QuotesAreEscaped(s: string)
    ensures forall i :: 0 <= i < |Escape(s)| && Escape(s)[i] == '"' ==> BackslashesBefore(Escape(s), i) % 2 == 1
    decreases |s|
  {
    if s != [] {
      var p := s[..|s| - 1];
      var c := s[|s| - 1];
      assert p + [c] == s;
      EscapeSnoc(p, c);
      var t := Escape(p);
      var u := t + EscapeChar(c);
      QuotesAreEscaped(p);
      forall i | 0 <= i < |u| && u[i] == '"'
        ensures BackslashesBefore(u, i) % 2 == 1
      {
        if i < |t| {
          BackslashesBeforePrefix(t, EscapeChar(c), i);
        } else {
          assert c == '"' && i == |t| + 1;
          EscapedEndsEven(p);
          BackslashesBeforePrefix(t, EscapeChar(c), |t|);
        }
      }
    }
  }

  // ---------------------------------------------------------------------------
  // The filter expression

  const TAG_PREFIX: string := "tag in [\""
  const TAG_SUFFIX: string := "\"]"
  const SEARCH_PREFIX: string := "content.contains(\""
  const SEARCH_SUFFIX: string := "\")"

  /** `buildApiFilter`: no expression for no filter, else a tag or content test on the escaped text. */
  function BuildApiFilter(filter: MemoFilters.MemoFilter): (r: Option<string>)
    ensures filter.None? <==> r.None?
  {
    match filter
    case None => None
    case Tag(tag) => Some(TAG_PREFIX + Escape(tag) + TAG_SUFFIX)
    case Search(query) => Some(SEARCH_PREFIX + Escape(query) + SEARCH_SUFFIX)
  }

  /** Strips a known prefix and suffix from an expression, leaving the literal body. */
  function Between(prefix: string, suffix: string, e: string): Option<string> {
    if |prefix| + |suffix| <= |e| && e[..|prefix|] == prefix && e[|e| - |suffix|..] == suffix
    then Some(e[|prefix|..|e| - |suffix|])
    else None
  }

  lemma BetweenWrapped(prefix: string, suffix: string, body: string)
    ensures Between(prefix, suffix, prefix + body + suffix) == Some(body)
  {
    var e := prefix + body + suffix;
    assert e[..|prefix|] == prefix;
    assert e[|e| - |suffix|..] == suffix;
    assert e[|prefix|..|e| - |suffix|] == body;
  }

  /**
   * The expression determines the filter: a tag expression starts with `t`, a search
   * expression with `c`, and inside each the escaped text undoes to the original.
   */
  lemma BuildApiFilterInjective(f: MemoFilters.MemoFilter, g: MemoFilters.MemoFilter)
    requires BuildApiFilter(f) == BuildApiFilter(g)
    ensures f == g
  {
    match f
    case None =>
    case Tag(a) =>
      assert BuildApiFilter(f).value[0] == 't';
      var b := g.tag;
      BetweenWrapped(TAG_PREFIX, TAG_SUFFIX, Escape(a));
      BetweenWrapped(TAG_PREFIX, TAG_SUFFIX, Escape(b));
      EscapeInjective(a, b);
    case Search(a) =>
      assert BuildApiFilter(f).value[0] == 'c';
      var b := g.query;
      BetweenWrapped(SEARCH_PREFIX, SEARCH_SUFFIX, Escape(a));
      BetweenWrapped(SEARCH_PREFIX, SEARCH_SUFFIX, Escape(b));
      EscapeInjective(a, b);
  }

  /** Reading the literal back out of the expression recovers the tag or the query. */
  lemma ApiFilterRoundTrip(filter: MemoFilters.MemoFilter)
    ensures filter.Tag? ==>
      && Between(TAG_PREFIX, TAG_SUFFIX, BuildApiFilter(filter).value).Some?
      && Unescape(Between(TAG_PREFIX, TAG_SUFFIX, BuildApiFilter(filter).value).value) == Some(filter.tag)
    ensures filter.Search? ==>
      && Between(SEARCH_PREFIX, SEARCH_SUFFIX, BuildApiFilter(filter).value).Some?
      && Unescape(Between(SEARCH_PREFIX, SEARCH_SUFFIX, BuildApiFilter(filter).value).value) == Some(filter.query)
  {
    match filter
    case None =>
    case Tag(a) =>
      BetweenWrapped(TAG_PREFIX, TAG_SUFFIX, Escape(a));
      UnescapeEscape(a);
    case Search(a) =>
      BetweenWrapped(SEARCH_PREFIX, SEARCH_SUFFIX, Escape(a));
      UnescapeEscape(a);
  }
}
