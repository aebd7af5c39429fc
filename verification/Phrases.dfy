/** The phrase checks over joined results that the suites share. */
module Phrases {
  import opened Text

  /** strings.Join(values, "\n") */
  function Join(values: seq<string>): string {
    if values == [] then "" else if |values| == 1 then values[0] else values[0] + "\n" + Join(values[1..])
  }

  /** Upper and lower case do not count; lower stands for strings.ToLower. */
  predicate Mentions(lower: string -> string, contents: seq<string>, phrase: string) {
    Contains(lower(Join(contents)), lower(phrase))
  }

  ghost predicate HasAll(lower: string -> string, contents: seq<string>, phrases: seq<string>) {
    forall k :: 0 <= k < |phrases| ==> Mentions(lower, contents, phrases[k])
  }

  ghost predicate HasNone(lower: string -> string, contents: seq<string>, phrases: seq<string>) {
    forall k :: 0 <= k < |phrases| ==> !Mentions(lower, contents, phrases[k])
  }

  method RequireContent(lower: string -> string, contents: seq<string>, phrases: seq<string>) returns (ok: bool)
    ensures ok <==> HasAll(lower, contents, phrases)
  {
    var joined := Join(contents);
    for k := 0 to |phrases|
      invariant forall m :: 0 <= m < k ==> Mentions(lower, contents, phrases[m])
    {
      if !Contains(lower(joined), lower(phrases[k])) {
        return false;
      }
    }
    return true;
  }

  method ForbidContent(lower: string -> string, contents: seq<string>, phrases: seq<string>) returns (ok: bool)
    ensures ok <==> HasNone(lower, contents, phrases)
  {
    var joined := Join(contents);
    for k := 0 to |phrases|
      invariant forall m :: 0 <= m < k ==> !Mentions(lower, contents, phrases[m])
    {
      if Contains(lower(joined), lower(phrases[k])) {
        return false;
      }
    }
    return true;
  }
}
