/** Text in pieces. */
module Text {

  const CR: char := '\r'
  const LF: char := '\n'

  function Join(pieces: seq<string>, separator: string): string {
    if pieces == [] then "" else if |pieces| == 1 then pieces[0]
    else pieces[0] + separator + Join(pieces[1..], separator)
  }

  lemma JoinCons(piece: string, rest: seq<string>, separator: string)
    requires rest != []
    ensures Join([piece] + rest, separator) == piece + separator + Join(rest, separator)
  {
    assert ([piece] + rest)[1..] == rest;
  }

  lemma {:induction false} JoinTogether(a: seq<string>, b: seq<string>, separator: string)
    requires a != [] && b != []
    ensures Join(a + b, separator) == Join(a, separator) + separator + Join(b, separator)
  {
    var first, rest := a[0], a[1..];
    assert a == [first] + rest;
    if rest == [] {
      assert a + b == [first] + b;
      JoinCons(first, b, separator);
    } else {
      assert a + b == [first] + (rest + b);
      JoinTogether(rest, b, separator);
      JoinCons(first, rest + b, separator);
      JoinCons(first, rest, separator);
      Associate(first + separator, Join(rest, separator), separator, Join(b, separator));
    }
  }

  lemma Associate(a: string, b: string, c: string, d: string)
    ensures a + (b + c + d) == a + b + c + d
  {
  }
}
