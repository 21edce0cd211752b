/**
 * A raw reader of URL query strings: the text after the first `?`, split on
 * `&`, each piece split on its first `=`. No percent-decoding is done. It is
 * the independent reading against which the authorization URL is checked.
 */
module UrlQuery {
  import opened Wrappers

  /** `s` does not contain `c`. */
  predicate Free(s: string, c: char) {
    forall j :: 0 <= j < |s| ==> s[j] != c
  }

  /** Position of the first `c` in `s`, or `|s|` when there is none. */
  function IndexOf(s: string, c: char): (i: nat)
    ensures i <= |s|
    ensures i < |s| ==> s[i] == c
    ensures forall j :: 0 <= j < i ==> s[j] != c
    decreases |s|
  {
    if s == [] then 0
    else if s[0] == c then 0
    else 1 + IndexOf(s[1..], c)
  }

  /** The pieces of `s` between occurrences of `sep`. */
  function Split(s: string, sep: char): (parts: seq<string>)
    ensures |parts| >= 1
    decreases |s|
  {
    var i := IndexOf(s, sep);
    if i == |s| then [s] else [s[..i]] + Split(s[i + 1..], sep)
  }

  /** `key=value` read as a pair; a piece without `=` has the empty value. */
  function SplitPair(piece: string): (string, string) {
    var i := IndexOf(piece, '=');
    if i == |piece| then (piece, "") else (piece[..i], piece[i + 1..])
  }

  /** The text of `url` before its first `?` (the whole URL when there is none). */
  function PathOf(url: string): string {
    url[..IndexOf(url, '?')]
  }

  /** The key/value pairs of the query of `url`, in order. */
  function QueryPairs(url: string): seq<(string, string)> {
    var q := IndexOf(url, '?');
    if q == |url| then []
    else
      PairsOf(Split(url[q + 1..], '&'))
  }

  /** Each piece read as a pair. */
  function PairsOf(pieces: seq<string>): (pairs: seq<(string, string)>)
    ensures |pairs| == |pieces|
    ensures forall i :: 0 <= i < |pieces| ==> pairs[i] == SplitPair(pieces[i])
  {
    seq(|pieces|, i requires 0 <= i < |pieces| => SplitPair(pieces[i]))
  }

  /** The first value recorded for `key`, as `URLSearchParams.get` returns it. */
  function Lookup(pairs: seq<(string, string)>, key: string): (r: Option<string>)
    ensures r.Some? <==> exists i :: 0 <= i < |pairs| && pairs[i].0 == key
    decreases |pairs|
  {
    if pairs == [] then None
    else if pairs[0].0 == key then Some(pairs[0].1)
    else Lookup(pairs[1..], key)
  }

  lemma IndexOfAfter(a: string, c: char, b: string)
    requires Free(a, c)
    ensures IndexOf(a + [c] + b, c) == |a|
  {
    var s := a + [c] + b;
    assert s[|a|] == c;
    assert forall j :: 0 <= j < |a| ==> s[j] == a[j];
  }

  /** The pieces joined with `sep` between consecutive ones. */
  function JoinWith(pieces: seq<string>, sep: char): string
    requires |pieces| >= 1
    decreases |pieces|
  {
    if |pieces| == 1 then pieces[0] else pieces[0] + [sep] + JoinWith(pieces[1..], sep)
  }

  /** Splitting on `sep` undoes joining pieces that are free of it. */
  lemma {:induction false} SplitJoin(pieces: seq<string>, sep: char)
    requires |pieces| >= 1
    requires forall i :: 0 <= i < |pieces| ==> Free(pieces[i], sep)
    ensures Split(JoinWith(pieces, sep), sep) == pieces
    decreases |pieces|
  {
    if |pieces| == 1 {
      SplitSingle(pieces[0], sep);
    } else {
      SplitJoin(pieces[1..], sep);
      SplitCons(pieces[0], sep, JoinWith(pieces[1..], sep));
      assert [pieces[0]] + pieces[1..] == pieces;
    }
  }

  /** A `key=value` piece is free of `c` when its key and value are and `c` is not `=`. */
  lemma PieceFree(key: string, value: string, c: char)
    requires c != '=' && Free(key, c) && Free(value, c)
    ensures Free(key + "=" + value, c)
  {
    FreeConcat(key, "=", c);
    FreeConcat(key + "=", value, c);
  }

  /** Free of `c` distributes over concatenation. */
  lemma FreeConcat(a: string, b: string, c: char)
    ensures Free(a + b, c) <==> Free(a, c) && Free(b, c)
  {
    if Free(a + b, c) {
      forall j | 0 <= j < |a| ensures a[j] != c {
        assert (a + b)[j] == a[j];
      }
      forall j | 0 <= j < |b| ensures b[j] != c {
        assert (a + b)[|a| + j] == b[j];
      }
    }
  }

  /** A URL whose path is free of `?` reads back as that path and the pieces of
      the text after the `?`. */
  lemma PathAndQuery(path: string, query: string)
    requires Free(path, '?')
    ensures PathOf(path + "?" + query) == path
    ensures QueryPairs(path + "?" + query) == PairsOf(Split(query, '&'))
  {
    var url := path + "?" + query;
    IndexOfAfter(path, '?', query);
    assert url[..|path|] == path;
    assert url[|path| + 1..] == query;
  }

  lemma IndexOfAbsent(a: string, c: char)
    requires Free(a, c)
    ensures IndexOf(a, c) == |a|
  {
  }

  /** Splitting a piece free of `sep`, followed by `sep` and more text. */
  lemma SplitCons(a: string, sep: char, b: string)
    requires Free(a, sep)
    ensures Split(a + [sep] + b, sep) == [a] + Split(b, sep)
  {
    var s := a + [sep] + b;
    IndexOfAfter(a, sep, b);
    assert s[..|a|] == a;
    assert s[|a| + 1..] == b;
  }

  /** A text free of `sep` is a single piece. */
  lemma SplitSingle(a: string, sep: char)
    requires Free(a, sep)
    ensures Split(a, sep) == [a]
  {
    IndexOfAbsent(a, sep);
  }

  /** A key free of `=` is read back with its whole value. */
  lemma SplitPairOf(key: string, value: string)
    requires Free(key, '=')
    ensures SplitPair(key + "=" + value) == (key, value)
  {
    var s := key + "=" + value;
    IndexOfAfter(key, '=', value);
    assert s[..|key|] == key;
    assert s[|key| + 1..] == value;
  }
}
