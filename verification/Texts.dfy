/** Texts put together from parts. */
module Texts {
  function JoinTexts(parts: seq<string>, separator: string): string {
    if parts == [] then ""
    else if |parts| == 1 then parts[0]
    else JoinTexts(parts[..|parts| - 1], separator) + separator + parts[|parts| - 1]
  }

  lemma JoinOne(part: string, separator: string)
    ensures JoinTexts([], separator) == "" && JoinTexts([part], separator) == part
  {
  }

  /** Two lists joined: the texts of both with one separator between them. */
  lemma {:induction false} JoinAppend(a: seq<string>, b: seq<string>, separator: string)
    requires a != [] && b != []
    ensures JoinTexts(a + b, separator) == JoinTexts(a, separator) + separator + JoinTexts(b, separator)
  {
    var n := |b| - 1;
    assert (a + b)[..|a + b| - 1] == a + b[..n] && (a + b)[|a + b| - 1] == b[n];
    if n == 0 {
      assert a + b[..n] == a;
      JoinOne(b[0], separator);
    } else {
      JoinAppend(a, b[..n], separator);
      assert JoinTexts(b, separator) == JoinTexts(b[..n], separator) + separator + b[n];
    }
  }
}
