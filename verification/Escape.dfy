/** Quoting a string value for the configuration file (sym_escape_string_value of kconfig/symbol.c)
    and undoing it in place when the file is read (conf_set_sym_val of kconfig/confdata.c). */
module KconfigEscape {
  import opened Common

  const NUL: char := '\0'
  const QUOTE: char := '\"'
  const BACKSLASH: char := '\\'

  predicate Special(c: char) { c == QUOTE || c == BACKSLASH }

  /** A backslash in front of every quote and backslash. */
  function EscapeBody(s: seq<char>): seq<char> {
    if s == [] then [] else (if Special(s[0]) then [BACKSLASH, s[0]] else [s[0]]) + EscapeBody(s[1..])
  }

  function Escape(s: seq<char>): seq<char> { [QUOTE] + EscapeBody(s) + [QUOTE] }

  /** What follows an opening quote, read up to the closing one; a backslash protects the character after it. */
  function Unescape(t: seq<char>): Option<seq<char>> {
    if t == [] then None
    else if t[0] == QUOTE then Some([])
    else if t[0] == BACKSLASH then
      if |t| == 1 then None else Prepend(t[1], Unescape(t[2..]))
    else Prepend(t[0], Unescape(t[1..]))
  }

  function Prepend(c: char, o: Option<seq<char>>): Option<seq<char>> {
    if o.Some? then Some([c] + o.value) else None
  }

  /** Unescaping undoes escaping, whatever follows the closing quote. */
  lemma {:induction false} UnescapeEscape(s: seq<char>, tail: seq<char>)
    ensures Unescape(EscapeBody(s) + [QUOTE] + tail) == Some(s)
  {
    var t := EscapeBody(s) + [QUOTE] + tail;
    if s == [] {
    } else {
      UnescapeEscape(s[1..], tail);
      var rest := EscapeBody(s[1..]) + [QUOTE] + tail;
      assert [s[0]] + s[1..] == s;
      if Special(s[0]) {
        assert t == [BACKSLASH, s[0]] + rest && t[2..] == rest;
      } else {
        assert EscapeBody(s) == [s[0]] + EscapeBody(s[1..]);
        assert t == [s[0]] + rest && t[1..] == rest;
      }
    }
  }

  lemma {:induction false} EscapeBodyConcat(s: seq<char>, t: seq<char>)
    ensures EscapeBody(s + t) == EscapeBody(s) + EscapeBody(t)
  {
    if s == [] {
      assert s + t == t;
    } else {
      assert (s + t)[1..] == s[1..] + t;
      EscapeBodyConcat(s[1..], t);
    }
  }

  lemma {:induction false} EscapeBodyPlain(s: seq<char>)
    requires forall i :: 0 <= i < |s| ==> !Special(s[i])
    ensures EscapeBody(s) == s
  {
    if s != [] { EscapeBodyPlain(s[1..]); }
  }

  /** Escaping changes nothing else: text without quotes and backslashes is only quoted. */
  lemma PlainTextIsOnlyQuoted(s: seq<char>)
    requires '\"' !in s && '\\' !in s
    ensures Escape(s) == ['\"'] + s + ['\"']
  {
    EscapeBodyPlain(s);
  }

  /** In whatever is read, plain text stands for itself, so does the character after a backslash, and the first
      quote that no backslash protects ends the text. */
  lemma {:induction false} PlainTextIsKept(before: seq<char>, rest: seq<char>)
    requires '\"' !in before && '\\' !in before
    ensures Unescape(rest).None? ==> Unescape(before + rest) == None
    ensures Unescape(rest).Some? ==> Unescape(before + rest) == Some(before + Unescape(rest).value)
  {
    if before == [] {
      assert before + rest == rest;
      if Unescape(rest).Some? { assert before + Unescape(rest).value == Unescape(rest).value; }
    } else {
      PlainTextIsKept(before[1..], rest);
      assert before[0] in before && before == [before[0]] + before[1..];
      assert (before + rest)[1..] == before[1..] + rest;
      if Unescape(rest).Some? {
        assert before + Unescape(rest).value == [before[0]] + (before[1..] + Unescape(rest).value);
      }
    }
  }

  lemma BackslashProtects(c: char, rest: seq<char>)
    ensures Unescape(['\\', c] + rest).Some? <==> Unescape(rest).Some?
    ensures Unescape(rest).Some? ==> Unescape(['\\', c] + rest) == Some([c] + Unescape(rest).value)
    ensures Unescape(['\"'] + rest) == Some([]) && Unescape(['\\']) == None && Unescape([]) == None
  {
    assert (['\\', c] + rest)[2..] == rest;
  }

  // ---------------------------------------------------------------- C strings in a buffer

  /** `a` holds the string `s` from `at` on, with its terminating NUL. */
  ghost predicate Holds(a: array<char>, at: nat, s: seq<char>)
    reads a
  {
    && at + |s| < a.Length && a[at..at + |s|] == s && a[at + |s|] == NUL
    && NUL !in s
  }

  lemma NoNulInside(a: array<char>, at: nat, s: seq<char>)
    requires Holds(a, at, s)
    ensures forall j :: at <= j < at + |s| ==> a[j] != NUL
  {
    forall j | at <= j < at + |s| ensures a[j] != NUL {
      assert a[at..at + |s|][j - at] == s[j - at] && s[j - at] in s;
    }
  }

  /** strcat and strncat: look for the end of the string, then copy. */
  method StrCat(a: array<char>, ghost s: seq<char>, t: seq<char>)
    requires Holds(a, 0, s) && |s| + |t| < a.Length && NUL !in t
    modifies a
    ensures Holds(a, 0, s + t)
  {
    var n := 0;
    NoNulInside(a, 0, s);
    while a[n] != NUL
      invariant n <= |s|
      decreases |s| - n
    {
      n := n + 1;
    }
    assert a[..n] == s;
    var i := 0;
    while i < |t|
      invariant i <= |t| && a[..n + i] == s + t[..i]
    {
      a[n + i] := t[i];
      i := i + 1;
    }
    a[n + i] := NUL;
    assert t[..i] == t;
  }

  /** strcspn(p, "\"\\"): how many characters from `p` on are neither. */
  method Span(s: seq<char>, p: nat) returns (l: nat)
    requires p <= |s|
    ensures p + l <= |s| && forall i :: p <= i < p + l ==> !Special(s[i])
    ensures p + l < |s| ==> Special(s[p + l])
  {
    l := 0;
    while p + l < |s| && !Special(s[p + l])
      invariant p + l <= |s| && forall i :: p <= i < p + l ==> !Special(s[i])
    {
      l := l + 1;
    }
  }

  lemma EscapeUpTo(s: seq<char>, p: nat, q: nat)
    requires p <= q <= |s| && forall i :: p <= i < q ==> !Special(s[i])
    ensures EscapeBody(s[..q]) == EscapeBody(s[..p]) + s[p..q]
    ensures q < |s| && Special(s[q]) ==> EscapeBody(s[..q + 1]) == EscapeBody(s[..q]) + [BACKSLASH, s[q]]
    ensures |EscapeBody(s)| == |EscapeBody(s[..q])| + |EscapeBody(s[q..])|
  {
    assert s[..q] == s[..p] + s[p..q];
    EscapeBodyConcat(s[..p], s[p..q]);
    EscapeBodyPlain(s[p..q]);
    assert s == s[..q] + s[q..];
    EscapeBodyConcat(s[..q], s[q..]);
    if q < |s| {
      assert s[..q + 1] == s[..q] + [s[q]];
      EscapeBodyConcat(s[..q], [s[q]]);
    }
  }

  /** The first pass: the size of the buffer. */
  method EscapedSize(s: seq<char>) returns (reslen: nat)
    ensures reslen == |Escape(s)| + 1
  {
    reslen := |s| + 2 + 1;
    var p := 0;
    while true
      invariant p <= |s| && reslen == |s| - p + |EscapeBody(s[..p])| + 3
      decreases |s| - p
    {
      var l := Span(s, p);
      EscapeUpTo(s, p, p + l);
      p := p + l;
      if p == |s| { break; }
      reslen := reslen + 1;
      p := p + 1;
    }
    assert s[..p] == s;
  }

  /** sym_escape_string_value: the second pass fills the buffer of exactly that size. */
  method EscapeString(s: seq<char>) returns (res: array<char>)
    requires NUL !in s
    ensures fresh(res) && Holds(res, 0, Escape(s)) && res.Length == |Escape(s)| + 1
  {
    var reslen := EscapedSize(s);
    res := new char[reslen];
    res[0] := NUL;
    StrCat(res, [], [QUOTE]);
    ghost var out := [QUOTE];
    var p := 0;
    while true
      invariant p <= |s| && res.Length == |Escape(s)| + 1 && fresh(res)
      invariant Holds(res, 0, out) && out == [QUOTE] + EscapeBody(s[..p])
      decreases |s| - p
    {
      var l := Span(s, p);
      out := AppendPlain(res, s, p, l, out);
      p := p + l;
      if p == |s| { break; }
      out := AppendEscaped(res, s, p, out);
      p := p + 1;
    }
    assert s[..p] == s;
    StrCat(res, out, [QUOTE]);
  }

  method AppendPlain(res: array<char>, s: seq<char>, p: nat, l: nat, ghost out: seq<char>)
    returns (ghost out': seq<char>)
    requires p + l <= |s| && (forall i :: p <= i < p + l ==> !Special(s[i])) && NUL !in s
    requires res.Length == |Escape(s)| + 1
    requires Holds(res, 0, out) && out == [QUOTE] + EscapeBody(s[..p])
    modifies res
    ensures Holds(res, 0, out') && out' == [QUOTE] + EscapeBody(s[..p + l])
  {
    ghost var plain := s[p..p + l];
    EscapeUpTo(s, p, p + l);
    assert out + plain == [QUOTE] + EscapeBody(s[..p + l]);
    assert |out| + |plain| < res.Length;
    assert forall i :: 0 <= i < |plain| ==> plain[i] == s[p + i];
    StrCat(res, out, s[p..p + l]);
    out' := out + plain;
  }

  method AppendEscaped(res: array<char>, s: seq<char>, p: nat, ghost out: seq<char>) returns (ghost out': seq<char>)
    requires p < |s| && Special(s[p]) && NUL !in s && res.Length == |Escape(s)| + 1
    requires Holds(res, 0, out) && out == [QUOTE] + EscapeBody(s[..p])
    modifies res
    ensures Holds(res, 0, out') && out' == [QUOTE] + EscapeBody(s[..p + 1])
  {
    EscapeUpTo(s, p, p);
    EscapeUpTo(s, p + 1, p + 1);
    StrCat(res, out, [BACKSLASH]);
    StrCat(res, out + [BACKSLASH], [s[p]]);
    out' := out + [BACKSLASH] + [s[p]];
  }

  // ---------------------------------------------------------------- reading back

  /** memmove to a lower address. */
  method MemMove(a: array<char>, dst: nat, src: nat, n: nat)
    requires dst <= src && src + n <= a.Length
    modifies a
    ensures a[dst..dst + n] == old(a[src..src + n])
    ensures a[..dst] == old(a[..dst]) && a[dst + n..] == old(a[dst + n..])
  {
    var i := 0;
    while i < n
      invariant i <= n
      invariant a[dst..dst + i] == old(a[src..src + i])
      invariant a[..dst] == old(a[..dst]) && a[dst + i..] == old(a[dst + i..])
    {
      assert a[src + i] == a[dst + i..][src - dst] == old(a[src + i]);
      a[dst + i] := a[src + i];
      i := i + 1;
    }
  }

  /** strpbrk(p, ""\") on the string `t` at `p`; `t` without its first `k` characters stands at the result. */
  method FindSpecial(a: array<char>, p: nat, ghost t: seq<char>) returns (q: nat)
    requires Holds(a, p, t)
    ensures p <= q <= p + |t| && Holds(a, q, t[q - p..])
    ensures forall i :: 0 <= i < q - p ==> !Special(t[i])
    ensures a[q] == if q == p + |t| then NUL else t[q - p]
    ensures q < p + |t| ==> Special(a[q])
  {
    q := p;
    while a[q] != NUL && !Special(a[q])
      invariant p <= q <= p + |t|
      invariant forall i :: 0 <= i < q - p ==> !Special(t[i])
      decreases p + |t| - q
    {
      assert a[p..p + |t|][q - p] == t[q - p];
      q := q + 1;
    }
    if q < p + |t| { assert a[p..p + |t|][q - p] == t[q - p]; }
  }

  lemma {:induction false} UnescapePlain(u: seq<char>, t: seq<char>)
    requires forall i :: 0 <= i < |u| ==> !Special(u[i])
    ensures Unescape(u + t) == if Unescape(t).Some? then Some(u + Unescape(t).value) else None
  {
    if u == [] {
      assert u + t == t;
      assert Unescape(t).Some? ==> [] + Unescape(t).value == Unescape(t).value;
    } else {
      UnescapePlain(u[1..], t);
      assert (u + t)[1..] == u[1..] + t;
      assert Unescape(t).Some? ==> [u[0]] + (u[1..] + Unescape(t).value) == u + Unescape(t).value;
    }
  }

  method StrLen(a: array<char>, p: nat, ghost t: seq<char>) returns (n: nat)
    requires Holds(a, p, t)
    ensures n == |t|
  {
    n := 0;
    NoNulInside(a, p, t);
    while a[p + n] != NUL
      invariant n <= |t|
      decreases |t| - n
    {
      n := n + 1;
    }
  }

  function After(done: seq<char>, o: Option<seq<char>>): Option<seq<char>> {
    if o.Some? then Some(done + o.value) else None
  }

  /** The buffer between `p` and `q` holds what has been unescaped, from `q` on what has not. */
  ghost predicate Halfway(a: array<char>, p: nat, q: nat, done: seq<char>, t: seq<char>)
    reads a
  {
    p <= q && Holds(a, q, t) && a[p..q] == done && (t == [] || NUL !in done)
  }

  /** Skipping ordinary characters. */
  method Skip(a: array<char>, p: nat, q: nat, ghost done: seq<char>, ghost t: seq<char>)
    returns (q': nat, ghost done': seq<char>, ghost t': seq<char>)
    requires Halfway(a, p, q, done, t)
    ensures Halfway(a, p, q', done', t') && After(done', Unescape(t')) == After(done, Unescape(t))
    ensures if t' == [] then a[q'] == NUL else Special(t'[0]) && a[q'] == t'[0]
    ensures |t'| <= |t|
  {
    q' := FindSpecial(a, q, t);
    ghost var u := t[..q' - q];
    done', t' := done + u, t[q' - q..];
    assert t == u + t';
    UnescapePlain(u, t');
    assert Unescape(t').Some? ==> done + (u + Unescape(t').value) == done' + Unescape(t').value;
    assert a[p..q'] == a[p..q] + a[q..q + |t|][..q' - q];
  }

  /** Dropping a backslash: everything behind it moves down by one, and the next character is taken as it is. */
  method DropBackslash(a: array<char>, p: nat, q: nat, ghost done: seq<char>, ghost t: seq<char>)
    returns (ghost done': seq<char>, ghost t': seq<char>)
    requires Halfway(a, p, q, done, t) && t != [] && t[0] == BACKSLASH
    modifies a
    ensures Halfway(a, p, q + 1, done', t') && After(done', Unescape(t')) == After(done, Unescape(t))
    ensures |t'| < |t|
  {
    ShiftDown(a, q, t);
    ghost var n, shifted := |t|, t[1..] + [NUL];
    assert a[p..q] == a[..q][p..];
    done' := done + [shifted[0]];
    assert a[q] == a[q..q + n][0];
    assert a[p..q + 1] == a[p..q] + [a[q]];
    if n == 1 {
      t' := [];
    } else {
      t' := t[2..];
      assert a[q + 1..q + 1 + |t'|] == a[q..q + n][1..n - 1] == t';
      assert a[q + 1 + |t'|] == a[q..q + n][n - 1];
      assert Unescape(t').Some? ==> done + ([t[1]] + Unescape(t').value) == done' + Unescape(t').value;
    }
  }

  /** memmove(p2, p2 + 1, strlen(p2)). */
  method ShiftDown(a: array<char>, q: nat, ghost t: seq<char>)
    requires Holds(a, q, t) && t != []
    modifies a
    ensures a[q..q + |t|] == t[1..] + [NUL] && a[q + |t|] == NUL
    ensures a[..q] == old(a[..q])
  {
    var n := StrLen(a, q, t);
    ghost var before := a[..];
    assert before[q..q + n] == t;
    assert before[q + 1..q + 1 + n] == t[1..] + [NUL] by {
      assert before[q + 1..q + 1 + n] == before[q..q + n][1..] + [before[q + n]];
    }
    MemMove(a, q, q + 1, n);
    assert a[q + n] == a[q + n..][0] == before[q + n..][0];
  }

  /** The loop of conf_set_sym_val, started behind the opening quote. */
  method UnescapeInPlace(a: array<char>, p: nat, ghost t0: seq<char>) returns (ok: bool)
    requires Holds(a, p, t0)
    modifies a
    ensures ok <==> Unescape(t0).Some?
    ensures ok ==> Holds(a, p, Unescape(t0).value)
  {
    var q: nat := p;
    ghost var done, t: seq<char> := [], t0;
    assert Unescape(t0).Some? ==> [] + Unescape(t0).value == Unescape(t0).value;
    while true
      invariant Halfway(a, p, q, done, t) && After(done, Unescape(t)) == Unescape(t0)
      decreases |t|
    {
      q, done, t := Skip(a, p, q, done, t);
      if a[q] == NUL {
        return false;
      }
      if a[q] == QUOTE {
        a[q] := NUL;
        assert a[p..q] == done;
        return true;
      }
      done, t := DropBackslash(a, p, q, done, t);
      q := q + 1;
    }
  }

  /** Writing a string and reading it back gives the same string. */
  method SaveThenLoad(s: seq<char>) returns (v: seq<char>)
    requires NUL !in s
    ensures v == s
  {
    var buffer := EscapeString(s);
    UnescapeEscape(s, []);
    ghost var t := EscapeBody(s) + [QUOTE];
    assert Escape(s)[1..] == t == t + [] && |t| < buffer.Length - 1 + 1;
    assert Holds(buffer, 1, t) by {
      assert buffer[1..1 + |t|] == buffer[0..0 + |Escape(s)|][1..];
    }
    var ok := UnescapeInPlace(buffer, 1, t);
    assert ok;
    var n := StrLen(buffer, 1, s);
    v := buffer[1..1 + n];
  }
}
