/** Choosing the comic: the issue number drawn from the latest issue's
    number, and the address of that issue's record. */
module Comic {
  import opened Text

  const LatestUrl := "https://xkcd.com/info.0.json"
  const IssueUrlHead := "https://xkcd.com/"
  const IssueUrlTail := "/info.0.json"

  /** `random.randint(1, latest)`. The random source is an arbitrary `draw`;
      an empty range (latest < 1) is the `ValueError` of `randint`. */
  function PickIssue(latest: int, draw: nat): (r: Option<int>)
    ensures r.Some? <==> latest >= 1
    ensures r.Some? ==> 1 <= r.value <= latest
  {
    if latest < 1 then None else Some(1 + draw % latest)
  }

  /** Every issue of the range is the outcome of some draw. */
  lemma PickIssueCovers(latest: int, n: int)
    requires 1 <= n <= latest
    ensures exists draw: nat :: PickIssue(latest, draw) == Some(n)
  {
    assert PickIssue(latest, n - 1) == Some(n);
  }

  /** The per-issue metadata address. */
  function MetadataUrl(issue: int): string {
    IssueUrlHead + IntToString(issue) + IssueUrlTail
  }

  /** Reads the issue number back out of a metadata address. */
  function IssueOfUrl(url: string): Option<int> {
    if |IssueUrlHead| + |IssueUrlTail| <= |url|
       && url[..|IssueUrlHead|] == IssueUrlHead
       && url[|url| - |IssueUrlTail|..] == IssueUrlTail
    then ParseInt(url[|IssueUrlHead|..|url| - |IssueUrlTail|])
    else None
  }

  /** Different issues have different addresses, and the address names its
      issue. */
  lemma MetadataUrlRoundTrip(issue: int)
    ensures IssueOfUrl(MetadataUrl(issue)) == Some(issue)
  {
    var d := IntToString(issue);
    var url := MetadataUrl(issue);
    assert url[..|IssueUrlHead|] == IssueUrlHead;
    assert url[|url| - |IssueUrlTail|..] == IssueUrlTail;
    assert url[|IssueUrlHead|..|url| - |IssueUrlTail|] == d;
    IntRoundTrip(issue);
  }
}
