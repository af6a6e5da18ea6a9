/**
 * The digest step of app/llm.py `web_search`: the `content` of every search
 * result that has a non-empty one, in the order the service returned them,
 * joined with newlines. The search call itself is an oracle of the resolver.
 */
module WebSearch {
  import opened Wrappers

  /** One item of the service's `results`; its `content` key may be missing or null. */
  datatype SearchResult = SearchResult(content: Option<string>)

  /** The service's reply; its `results` key may be missing. */
  datatype SearchResponse = SearchResponse(results: Option<seq<SearchResult>>)

  /** `resp.get("results", [])`. */
  function Results(resp: SearchResponse): seq<SearchResult> {
    match resp.results
    case None => []
    case Some(rs) => rs
  }

  /** `r.get("content")` is truthy: present, not null and not empty. */
  predicate HasContent(r: SearchResult) {
    r.content.Some? && r.content.value != []
  }

  /** The contents kept, in order. */
  function Contents(results: seq<SearchResult>): (r: seq<string>)
    ensures |r| <= |results|
    ensures forall i :: 0 <= i < |r| ==> r[i] != []
  {
    if results == [] then []
    else
      var last := results[|results| - 1];
      Contents(results[..|results| - 1]) + (if HasContent(last) then [last.content.value] else [])
  }

  /** `sep.join(parts)`. */
  function Join(parts: seq<string>, sep: char): string {
    if |parts| == 0 then []
    else if |parts| == 1 then parts[0]
    else parts[0] + [sep] + Join(parts[1..], sep)
  }

  /** `s.split(sep)`: the pieces between separators, at least one. */
  function Split(s: string, sep: char): (pieces: seq<string>)
    ensures |pieces| >= 1
  {
    if s == [] then [[]]
    else
      var rest := Split(s[1..], sep);
      if s[0] == sep then [[]] + rest else [[s[0]] + rest[0]] + rest[1..]
  }

  /** The digest of a search response. */
  function Digest(resp: SearchResponse): string {
    Join(Contents(Results(resp)), '\n')
  }

  /** The loop of `web_search` that collects the contents, then the join. */
  method WebDigest(resp: SearchResponse) returns (digest: string)
    ensures digest == Digest(resp)
  {
    var results := match resp.results case None => [] case Some(rs) => rs;
    var contents: seq<string> := [];
    for i := 0 to |results|
      invariant contents == Contents(results[..i])
    {
      assert results[..i + 1][..i] == results[..i];
      var r := results[i];
      if r.content.Some? && r.content.value != [] {
        contents := contents + [r.content.value];
      }
    }
    assert results[..|results|] == results;
    digest := Join(contents, '\n');
  }

  /** Collecting distributes over concatenation: the digest keeps the service's order. */
  lemma {:induction false} ContentsAppend(a: seq<SearchResult>, b: seq<SearchResult>)
    ensures Contents(a + b) == Contents(a) + Contents(b)
  {
    if b == [] {
      assert a + b == a;
    } else {
      var b' := b[..|b| - 1];
      assert (a + b)[..|a + b| - 1] == a + b';
      ContentsAppend(a, b');
    }
  }

  /** Every kept content comes from a result that has it, and every such result is kept. */
  lemma {:induction false} ContentsExact(results: seq<SearchResult>)
    ensures forall s :: s in Contents(results) <==> exists r :: r in results && HasContent(r) && r.content.value == s
  {
    if results != [] {
      var init := results[..|results| - 1];
      ContentsExact(init);
      assert results == init + [results[|results| - 1]];
    }
  }

  lemma {:induction false} JoinEmpty(parts: seq<string>, sep: char)
    requires forall i :: 0 <= i < |parts| ==> parts[i] != []
    ensures Join(parts, sep) == [] <==> parts == []
  {
    if |parts| > 1 {
      JoinEmpty(parts[1..], sep);
    }
  }

  /** The digest is empty exactly when no result has content. */
  lemma DigestEmptyIff(resp: SearchResponse)
    ensures Digest(resp) == [] <==> forall r :: r in Results(resp) ==> !HasContent(r)
  {
    var contents := Contents(Results(resp));
    JoinEmpty(contents, '\n');
    ContentsExact(Results(resp));
    if contents != [] {
      assert contents[0] in contents;
    }
    forall r | r in Results(resp) && HasContent(r) ensures r.content.value in contents {
    }
  }

  lemma {:induction false} SplitWithoutSep(s: string, sep: char)
    requires sep !in s
    ensures Split(s, sep) == [s]
  {
    if s != [] {
      assert s[0] in s;
      assert forall c :: c in s[1..] ==> c in s;
      SplitWithoutSep(s[1..], sep);
      assert [s[0]] + s[1..] == s;
    }
  }

  lemma {:induction false} SplitAtSep(a: string, b: string, sep: char)
    requires sep !in a
    ensures Split(a + [sep] + b, sep) == [a] + Split(b, sep)
  {
    if a == [] {
      assert a + [sep] + b == [sep] + b;
      assert ([sep] + b)[1..] == b;
    } else {
      assert (a + [sep] + b)[1..] == a[1..] + [sep] + b;
      SplitAtSep(a[1..], b, sep);
      assert [a[0]] + a[1..] == a;
    }
  }

  /** Splitting a join gives the parts back when none contains the separator. */
  lemma {:induction false} SplitJoin(parts: seq<string>, sep: char)
    requires |parts| >= 1
    requires forall i :: 0 <= i < |parts| ==> sep !in parts[i]
    ensures Split(Join(parts, sep), sep) == parts
  {
    if |parts| == 1 {
      SplitWithoutSep(parts[0], sep);
    } else {
      SplitAtSep(parts[0], Join(parts[1..], sep), sep);
      SplitJoin(parts[1..], sep);
    }
  }

  /**
   * When some result has content and no content spans several lines, the lines
   * of the digest are the kept contents in order.
   */
  lemma DigestLines(resp: SearchResponse)
    requires exists r :: r in Results(resp) && HasContent(r)
    requires forall r :: r in Results(resp) && HasContent(r) ==> '\n' !in r.content.value
    ensures Split(Digest(resp), '\n') == Contents(Results(resp))
  {
    var contents := Contents(Results(resp));
    ContentsExact(Results(resp));
    var r :| r in Results(resp) && HasContent(r);
    assert r.content.value in contents;
    forall i | 0 <= i < |contents| ensures '\n' !in contents[i] {
      assert contents[i] in contents;
    }
    SplitJoin(contents, '\n');
  }
}
