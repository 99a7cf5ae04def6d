/** Rows and columns of byte offsets in a text. */
module TextPosition {
  newtype byte = b: int | 0 <= b < 256
  type Text = seq<byte>

  const NEWLINE: byte := 10

  /** The number of newlines. */
  function Rows(text: Text): (n: nat)
    ensures n <= |text|
  {
    if text == [] then 0
    else Rows(text[..|text| - 1]) + if text[|text| - 1] == NEWLINE then 1 else 0
  }

  /** The number of bytes after the last newline. */
  function Column(text: Text): (n: nat)
    ensures n <= |text|
  {
    if text == [] || text[|text| - 1] == NEWLINE then 0 else Column(text[..|text| - 1]) + 1
  }

  /** How positions behave under concatenation. */
  lemma {:induction false} PositionAppend(a: Text, b: Text)
    ensures Rows(a + b) == Rows(a) + Rows(b)
    ensures Column(a + b) == if Rows(b) == 0 then Column(a) + |b| else Column(b)
    ensures Rows(b) == 0 ==> Column(b) == |b|
    decreases |b|
  {
    if b == [] {
      assert a + b == a;
    } else {
      assert (a + b)[..|a + b| - 1] == a + b[..|b| - 1];
      PositionAppend(a, b[..|b| - 1]);
    }
  }
}
