/** The session id both handlers take from the handshake's `Cookie` header:
    `strings.Split(header, "=")[1]`. */
module Cookie {
  import opened Protocol

  /** Number of occurrences of `sep` in `s`. */
  function Count(s: string, sep: char): (n: nat)
    ensures n == 0 <==> sep !in s
    ensures n <= |s|
  {
    if |s| == 0 then 0 else (if s[0] == sep then 1 else 0) + Count(s[1..], sep)
  }

  /** Go's `strings.Split(s, string(sep))`: the pieces of `s` between the
      occurrences of `sep`; an empty `s` gives one empty piece. */
  function Split(s: string, sep: char): (parts: seq<string>)
    ensures |parts| == Count(s, sep) + 1
    ensures forall i :: 0 <= i < |parts| ==> sep !in parts[i]
  {
    if |s| == 0 then [""]
    else
      var rest := Split(s[1..], sep);
      if s[0] == sep then [""] + rest
      else [[s[0]] + rest[0]] + rest[1..]
  }

  /** Go's `strings.Join(parts, string(sep))`. */
  function JoinWith(parts: seq<string>, sep: char): (s: string)
    requires |parts| >= 1
  {
    if |parts| == 1 then parts[0] else parts[0] + [sep] + JoinWith(parts[1..], sep)
  }

  lemma {:induction false} JoinConsHead(c: char, parts: seq<string>, sep: char)
    requires |parts| >= 1
    ensures JoinWith([[c] + parts[0]] + parts[1..], sep) == [c] + JoinWith(parts, sep)
  {
    var q := [[c] + parts[0]] + parts[1..];
    assert q[1..] == parts[1..];
  }

  /** Joining the pieces again with the separator gives back the input. */
  lemma {:induction false} SplitJoin(s: string, sep: char)
    ensures JoinWith(Split(s, sep), sep) == s
  {
    if |s| > 0 {
      var rest := Split(s[1..], sep);
      SplitJoin(s[1..], sep);
      if s[0] == sep {
        assert ([""] + rest)[1..] == rest;
        assert JoinWith([""] + rest, sep) == [sep] + s[1..];
      } else {
        JoinConsHead(s[0], rest, sep);
      }
      assert s == [s[0]] + s[1..];
    }
  }

  /** Text without a separator splits into itself alone. */
  lemma {:induction false} SplitNoSep(s: string, sep: char)
    requires sep !in s
    ensures Split(s, sep) == [s]
  {
    if |s| > 0 {
      SplitNoSep(s[1..], sep);
      assert s == [s[0]] + s[1..];
    }
  }

  /** The first piece is everything before the first separator. */
  lemma {:induction false} SplitAtFirst(a: string, b: string, sep: char)
    requires sep !in a
    ensures Split(a + [sep] + b, sep) == [a] + Split(b, sep)
  {
    var s := a + [sep] + b;
    if |a| == 0 {
      assert s == [sep] + b;
    } else {
      var tail := a[1..] + [sep] + b;
      assert s == [a[0]] + tail;
      SplitAtFirst(a[1..], b, sep);
      var rest := Split(tail, sep);
      assert rest == [a[1..]] + Split(b, sep);
      assert Split(s, sep) == [[a[0]] + rest[0]] + rest[1..];
      assert [a[0]] + a[1..] == a;
    }
  }

  /** The session id: the second `=`-separated piece of the header, or None
      where the source indexes past the end of the split (no `=` at all) and
      the handler panics before registering anything. */
  function SessionIdOf(header: string): (r: Option<SessionId>)
    ensures r.None? <==> '=' !in header
    ensures r.Some? ==> '=' !in r.value
  {
    var parts := Split(header, '=');
    if |parts| < 2 then None else Some(parts[1])
  }

  /** `key=id` yields `id`, and so does `key=id=rest`: the id is the text after
      the first `=` up to the next `=` or the end. */
  lemma SessionIdOfPair(key: string, id: string, rest: string)
    requires '=' !in key && '=' !in id
    ensures SessionIdOf(key + "=" + id) == Some(id)
    ensures SessionIdOf(key + "=" + id + "=" + rest) == Some(id)
  {
    SplitAtFirst(key, id, '=');
    SplitNoSep(id, '=');
    assert key + "=" + id == key + ['='] + id;
    var t := id + ['='] + rest;
    SplitAtFirst(key, t, '=');
    SplitAtFirst(id, rest, '=');
    assert key + "=" + id + "=" + rest == key + ['='] + t;
  }
}
