/** The parts of the WHATWG URL Standard and of ECMAScript strings that the
    authorization handlers and the static extractor rely on. Parsing, percent-
    encoding and form-urlencoding stay abstract (they are parameters). */
module WebUrl {
  import opened Wrappers

  /** A parsed URL: everything before the path (scheme, credentials, host,
      port) as its serialised text, the path, the query as the name-value list
      a `URLSearchParams` object holds, and the fragment. */
  datatype Url = Url(prefix: string, pathname: string, query: seq<(string, string)>, fragment: Option<string>)

  /** The `href` getter (the URL serializer). The query is written as
      application/x-www-form-urlencoded, with `formEncode` applied to each
      name and value. */
  function Href(u: Url, formEncode: string -> string): string {
    u.prefix + u.pathname + Search(u.query, formEncode) + FragmentPart(u.fragment)
  }

  function Search(q: seq<(string, string)>, formEncode: string -> string): string {
    if q == [] then "" else "?" + SerializeQuery(q, formEncode)
  }

  function SerializeQuery(q: seq<(string, string)>, formEncode: string -> string): string
    decreases |q|
  {
    if q == [] then ""
    else
      formEncode(q[0].0) + "=" + formEncode(q[0].1)
      + (if |q| == 1 then "" else "&" + SerializeQuery(q[1..], formEncode))
  }

  function FragmentPart(f: Option<string>): string {
    if f.Some? then "#" + f.value else ""
  }

  // ---------------------------------------------------------------------------
  // String.prototype.split with a one-character separator

  /** `s.split(c)`: the pieces of `s` between the occurrences of `c`. */
  function Split(s: string, c: char): (pieces: seq<string>)
    ensures |pieces| >= 1
    ensures forall i | 0 <= i < |pieces| :: c !in pieces[i]
  {
    if s == [] then [""]
    else if s[0] == c then [""] + Split(s[1..], c)
    else
      var rest := Split(s[1..], c);
      [[s[0]] + rest[0]] + rest[1..]
  }

  /** `pieces.join(c)` */
  function Join(pieces: seq<string>, c: char): string
    requires |pieces| >= 1
  {
    if |pieces| == 1 then pieces[0] else pieces[0] + [c] + Join(pieces[1..], c)
  }

  /** Splitting and joining again gives the original string back. */
  lemma {:induction false} JoinSplit(s: string, c: char)
    ensures Join(Split(s, c), c) == s
  {
    if s != [] {
      JoinSplit(s[1..], c);
      var rest := Split(s[1..], c);
      if s[0] == c {
        assert Split(s, c)[1..] == rest;
      } else {
        var pieces := Split(s, c);
        assert pieces[0] == [s[0]] + rest[0];
        if |rest| == 1 {
          assert s == [s[0]] + s[1..];
        } else {
          assert pieces[1..] == rest[1..];
          assert Join(pieces, c) == [s[0]] + (rest[0] + [c] + Join(rest[1..], c));
          assert s == [s[0]] + s[1..];
        }
      }
    }
  }

  /** `s.split(c)[1]`: `undefined` (None) when `s` has no `c`. */
  function SecondPiece(s: string, c: char): Option<string> {
    var pieces := Split(s, c);
    if |pieces| > 1 then Some(pieces[1]) else None
  }

  /** Splitting a text that starts with a separator-free part `a`. */
  lemma {:induction false} SplitAfterFreePrefix(a: string, b: string, c: char)
    requires c !in a
    ensures Split(a + b, c) == [a + Split(b, c)[0]] + Split(b, c)[1..]
  {
    if a == [] {
      assert a + b == b;
      var pieces := Split(b, c);
      assert a + pieces[0] == pieces[0];
      assert [pieces[0]] + pieces[1..] == pieces;
    } else {
      assert (a + b)[0] == a[0];
      assert (a + b)[1..] == a[1..] + b;
      SplitAfterFreePrefix(a[1..], b, c);
      assert [a[0]] + (a[1..] + Split(b, c)[0]) == a + Split(b, c)[0];
    }
  }

  /** A text without the separator is a single piece. */
  lemma SplitWithoutSeparator(s: string, c: char)
    requires c !in s
    ensures Split(s, c) == [s]
  {
    SplitAfterFreePrefix(s, "", c);
    assert s + "" == s;
  }

  /** The text between the first and the second `#` of a serialised URL is the
      fragment up to its own first `#`, provided nothing before the fragment
      contains a `#` (the URL Standard percent-encodes it in the path, the
      query and the credentials, and forbids it in the host). */
  lemma HashPieceIsFragment(u: Url, formEncode: string -> string)
    requires '#' !in u.prefix + u.pathname + Search(u.query, formEncode)
    ensures SecondPiece(Href(u, formEncode), '#')
            == if u.fragment.Some? then Some(Split(u.fragment.value, '#')[0]) else None
  {
    var a := u.prefix + u.pathname + Search(u.query, formEncode);
    var b := FragmentPart(u.fragment);
    assert Href(u, formEncode) == a + b;
    SplitAfterFreePrefix(a, b, '#');
    if u.fragment.Some? {
      assert b[0] == '#' && b[1..] == u.fragment.value;
    } else {
      assert b == [];
    }
  }

  // ---------------------------------------------------------------------------
  // URLSearchParams.set

  /** The values of the pairs named `name`, in list order. */
  function ValuesOf(q: seq<(string, string)>, name: string): seq<string> {
    if q == [] then []
    else (if q[0].0 == name then [q[0].1] else []) + ValuesOf(q[1..], name)
  }

  /** The pairs not named `name`, in list order. */
  function Others(q: seq<(string, string)>, name: string): (r: seq<(string, string)>)
    ensures ValuesOf(r, name) == []
    ensures |r| <= |q|
  {
    if q == [] then []
    else if q[0].0 == name then Others(q[1..], name)
    else [q[0]] + Others(q[1..], name)
  }

  /** Removing the pairs of a name twice is removing them once. */
  lemma {:induction false} OthersIdempotent(q: seq<(string, string)>, name: string)
    ensures Others(Others(q, name), name) == Others(q, name)
  {
    if q != [] {
      OthersIdempotent(q[1..], name);
      if q[0].0 != name {
        assert ([q[0]] + Others(q[1..], name))[1..] == Others(q[1..], name);
      }
    }
  }

  /** Index of the first pair named `name`, or `|q|` when there is none. */
  function NameIndex(q: seq<(string, string)>, name: string): (k: nat)
    ensures k <= |q|
    ensures k < |q| ==> q[k].0 == name
    ensures forall j | 0 <= j < k :: q[j].0 != name
  {
    if q == [] then 0 else if q[0].0 == name then 0 else 1 + NameIndex(q[1..], name)
  }

  /** The list after `URLSearchParams.set(name, value)`: the first pair named
      `name` takes the new value and the later pairs of that name are removed;
      when there is none, the pair is appended. */
  function SetSearchParam(q: seq<(string, string)>, name: string, value: string): (r: seq<(string, string)>)
    ensures ValuesOf(r, name) == [value]
    ensures Others(r, name) == Others(q, name)
  {
    if q == [] then [(name, value)]
    else if q[0].0 == name then
      OthersIdempotent(q[1..], name);
      var r := [(name, value)] + Others(q[1..], name);
      assert r[0] == (name, value) && r[1..] == Others(q[1..], name);
      r
    else
      var rest := SetSearchParam(q[1..], name, value);
      var r := [q[0]] + rest;
      assert r[0] == q[0] && r[1..] == rest;
      r
  }

  /** `set` leaves the pairs before the first one named `name` untouched. */
  lemma {:induction false} SetSearchParamKeepsPrefix(q: seq<(string, string)>, name: string, value: string)
    ensures NameIndex(q, name) <= |SetSearchParam(q, name, value)|
    ensures SetSearchParam(q, name, value)[..NameIndex(q, name)] == q[..NameIndex(q, name)]
  {
    if q != [] && q[0].0 != name {
      SetSearchParamKeepsPrefix(q[1..], name, value);
      var rest := SetSearchParam(q[1..], name, value);
      var r := [q[0]] + rest;
      assert r[..NameIndex(q, name)] == [q[0]] + rest[..NameIndex(q[1..], name)];
      assert q[..NameIndex(q, name)] == [q[0]] + q[1..][..NameIndex(q[1..], name)];
    }
  }

  /** When the name is present, its first pair keeps its position. */
  lemma {:induction false} SetSearchParamKeepsIndex(q: seq<(string, string)>, name: string, value: string)
    requires NameIndex(q, name) < |q|
    ensures NameIndex(SetSearchParam(q, name, value), name) == NameIndex(q, name)
  {
    if q[0].0 != name {
      SetSearchParamKeepsIndex(q[1..], name, value);
      var rest := SetSearchParam(q[1..], name, value);
      assert ([q[0]] + rest)[1..] == rest;
    }
  }

  /** When the name is absent, the pair is appended to the unchanged list. */
  lemma {:induction false} SetSearchParamAppends(q: seq<(string, string)>, name: string, value: string)
    requires NameIndex(q, name) == |q|
    ensures SetSearchParam(q, name, value) == q + [(name, value)]
  {
    if q != [] {
      SetSearchParamAppends(q[1..], name, value);
      assert q == [q[0]] + q[1..];
    }
  }

  // ---------------------------------------------------------------------------
  // String.prototype.replace with a string pattern

  predicate OccursAt(s: string, pat: string, i: int) {
    0 <= i && i + |pat| <= |s| && s[i..i + |pat|] == pat
  }

  /** `s.replace(pat, rep)` for a string pattern: the first occurrence of `pat`
      is replaced by `rep` (an empty pattern occurs at 0). The replacement text
      is inserted literally. */
  function ReplaceFirst(s: string, pat: string, rep: string): string
    decreases |s|
  {
    if |pat| <= |s| && s[..|pat|] == pat then rep + s[|pat|..]
    else if s == [] then s
    else [s[0]] + ReplaceFirst(s[1..], pat, rep)
  }

  lemma OccursAtTail(s: string, pat: string, i: int)
    requires s != [] && i >= 1
    ensures OccursAt(s, pat, i) <==> OccursAt(s[1..], pat, i - 1)
  {
    if i + |pat| <= |s| {
      assert s[1..][i - 1..i - 1 + |pat|] == s[i..i + |pat|];
    }
  }

  /** With no occurrence of the pattern, the text is unchanged. */
  lemma {:induction false} ReplaceFirstWithoutOccurrence(s: string, pat: string, rep: string)
    requires forall i :: !OccursAt(s, pat, i)
    ensures ReplaceFirst(s, pat, rep) == s
  {
    assert !OccursAt(s, pat, 0);
    if s != [] {
      forall i ensures !OccursAt(s[1..], pat, i) {
        if i >= 0 { OccursAtTail(s, pat, i + 1); }
      }
      ReplaceFirstWithoutOccurrence(s[1..], pat, rep);
    }
  }

  /** Exactly the first occurrence is replaced and the rest is untouched. */
  lemma {:induction false} ReplaceFirstAtFirstOccurrence(s: string, pat: string, rep: string, i: int)
    requires OccursAt(s, pat, i)
    requires forall j | 0 <= j < i :: !OccursAt(s, pat, j)
    ensures ReplaceFirst(s, pat, rep) == s[..i] + rep + s[i + |pat|..]
    decreases |s|
  {
    if i > 0 {
      assert !OccursAt(s, pat, 0);
      OccursAtTail(s, pat, i);
      forall j | 0 <= j < i - 1 ensures !OccursAt(s[1..], pat, j) {
        OccursAtTail(s, pat, j + 1);
      }
      ReplaceFirstAtFirstOccurrence(s[1..], pat, rep, i - 1);
      assert s[..i] == [s[0]] + s[1..][..i - 1];
      assert s[i + |pat|..] == s[1..][i - 1 + |pat|..];
    }
  }
}
