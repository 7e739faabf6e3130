/** `extractUrlFromIssue`: the first match of `/https?:\/\/[^\s"']+/` in the
    body of an issue, or nothing. */
module UrlExtraction {
  import opened Wrappers
  import opened JsText

  /** The characters `[^\s"']` admits into a URL. */
  predicate IsUrlChar(c: char) {
    !IsWhitespace(c) && c != '"' && c != '\''
  }

  /** The regular expression can start a match at `i`: a scheme `https://` or
      `http://` followed by at least one URL character. */
  predicate UrlStartsAt(body: string, i: nat) {
    || (PrefixAt(body, i, "https://") && i + 8 < |body| && IsUrlChar(body[i + 8]))
    || (PrefixAt(body, i, "http://") && i + 7 < |body| && IsUrlChar(body[i + 7]))
  }

  /** `body[s..e]` is a match of the regular expression that starts at `s` and
      that the greedy `+` cannot extend any further. */
  ghost predicate IsMatch(body: string, s: nat, e: nat) {
    && s <= e <= |body|
    && UrlStartsAt(body, s)
    && (forall k :: s <= k < e ==> IsUrlChar(body[k]))
    && (e == |body| || !IsUrlChar(body[e]))
  }

  /** No match of the regular expression starts anywhere in `body`. */
  ghost predicate NoUrl(body: string) {
    forall j :: 0 <= j <= |body| ==> !UrlStartsAt(body, j)
  }

  /** The leftmost match starting at `i` or later, as a start and an end. */
  function FindFrom(body: string, i: nat): (r: Option<(nat, nat)>)
    requires i <= |body|
    ensures r.None? <==> forall j :: i <= j <= |body| ==> !UrlStartsAt(body, j)
    ensures r.Some? ==> i <= r.value.0 && IsMatch(body, r.value.0, r.value.1)
    ensures r.Some? ==> forall j :: i <= j < r.value.0 ==> !UrlStartsAt(body, j)
    decreases |body| - i
  {
    if UrlStartsAt(body, i) then Some((i, RunEnd(body, i, IsUrlChar)))
    else if i == |body| then None
    else FindFrom(body, i + 1)
  }

  /** `extractUrlFromIssue(body)`: the text of the leftmost match, or null. */
  function ExtractUrlFromIssue(body: string): (r: Option<string>)
    ensures r.None? <==> NoUrl(body)
    ensures r.Some? ==> Includes(body, r.value)
    ensures r.Some? ==> PrefixAt(r.value, 0, "http://") || PrefixAt(r.value, 0, "https://")
    ensures r.Some? ==> |r.value| > 7
    ensures r.Some? && PrefixAt(r.value, 0, "https://") ==> |r.value| > 8
    ensures r.Some? ==> forall k :: 0 <= k < |r.value| ==> IsUrlChar(r.value[k])
  {
    match FindFrom(body, 0)
    case None => None
    case Some((s, e)) =>
      MatchShape(body, s, e);
      Some(body[s..e])
  }

  /** What a match looks like as a string of its own. */
  lemma MatchShape(body: string, s: nat, e: nat)
    requires IsMatch(body, s, e)
    ensures Includes(body, body[s..e])
    ensures PrefixAt(body[s..e], 0, "http://") || PrefixAt(body[s..e], 0, "https://")
    ensures |body[s..e]| > 7
    ensures PrefixAt(body[s..e], 0, "https://") ==> |body[s..e]| > 8
    ensures forall k :: 0 <= k < e - s ==> IsUrlChar(body[s..e][k])
  {
    var m := body[s..e];
    assert PrefixAt(body, s, m);
    if PrefixAt(body, s, "https://") && s + 8 < |body| && IsUrlChar(body[s + 8]) {
      assert s + 8 < e;
      assert m[..8] == body[s..s + 8];
    } else {
      assert PrefixAt(body, s, "http://") && s + 7 < |body| && IsUrlChar(body[s + 7]);
      assert s + 7 < e;
      assert forall k :: 0 <= k < 7 ==> m[k] == body[s + k];
      assert m[..7] == body[s..s + 7];
      assert m[4] == ':';
      assert !PrefixAt(m, 0, "https://") by {
        assert "https://"[4] == 's';
      }
    }
  }

  /** The result is exactly the leftmost match, extended as far as it goes:
      together with the contract above this pins the result down completely. */
  lemma {:induction false} ExtractUrlIsLeftmostMaximal(body: string, s: nat)
    requires s <= |body| && UrlStartsAt(body, s)
    requires forall j :: 0 <= j < s ==> !UrlStartsAt(body, j)
    ensures ExtractUrlFromIssue(body) == Some(body[s..RunEnd(body, s, IsUrlChar)])
  {
    var r := FindFrom(body, 0);
    assert r.Some?;
    var (s', e') := r.value;
    assert s' == s;
    RunEndUnique(body, s, e', IsUrlChar);
  }
}
