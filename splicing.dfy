/**
 * Writing a block of values into a buffer, as sequences: the encoder and the decoder
 * both fill an array one block at a time and say what the array holds afterwards.
 */
module Splicing {

  /** s with the elements from position at onwards replaced by w. */
  function Splice<T>(s: seq<T>, at: nat, w: seq<T>): (r: seq<T>)
    requires at + |w| <= |s|
    ensures |r| == |s|
  {
    s[..at] + w + s[at + |w|..]
  }

  /** Writing a and then b right after it writes a + b. */
  lemma SpliceTwice<T>(s: seq<T>, at: nat, a: seq<T>, mid: nat, b: seq<T>)
    requires mid == at + |a| && mid + |b| <= |s|
    ensures Splice(Splice(s, at, a), mid, b) == Splice(s, at, a + b)
  {
  }

  /** n successive writes at at, at+1, ... replace that slice. */
  lemma Writes8<T>(s: seq<T>, at: nat, w: seq<T>)
    requires |w| == 8 && at + 8 <= |s|
    ensures s[at := w[0]][at + 1 := w[1]][at + 2 := w[2]][at + 3 := w[3]][at + 4 := w[4]][at + 5 := w[5]][at + 6 := w[6]][at + 7 := w[7]] == Splice(s, at, w)
  {
  }

  lemma Writes7<T>(s: seq<T>, at: nat, w: seq<T>)
    requires |w| == 7 && at + 7 <= |s|
    ensures s[at := w[0]][at + 1 := w[1]][at + 2 := w[2]][at + 3 := w[3]][at + 4 := w[4]][at + 5 := w[5]][at + 6 := w[6]] == Splice(s, at, w)
  {
  }

  lemma Writes5<T>(s: seq<T>, at: nat, w: seq<T>)
    requires |w| == 5 && at + 5 <= |s|
    ensures s[at := w[0]][at + 1 := w[1]][at + 2 := w[2]][at + 3 := w[3]][at + 4 := w[4]] == Splice(s, at, w)
  {
  }

  lemma Writes4<T>(s: seq<T>, at: nat, w: seq<T>)
    requires |w| == 4 && at + 4 <= |s|
    ensures s[at := w[0]][at + 1 := w[1]][at + 2 := w[2]][at + 3 := w[3]] == Splice(s, at, w)
  {
  }

  lemma Writes3<T>(s: seq<T>, at: nat, w: seq<T>)
    requires |w| == 3 && at + 3 <= |s|
    ensures s[at := w[0]][at + 1 := w[1]][at + 2 := w[2]] == Splice(s, at, w)
  {
  }

  lemma Writes2<T>(s: seq<T>, at: nat, w: seq<T>)
    requires |w| == 2 && at + 2 <= |s|
    ensures s[at := w[0]][at + 1 := w[1]] == Splice(s, at, w)
  {
  }

  lemma Writes1<T>(s: seq<T>, at: nat, w: seq<T>)
    requires |w| == 1 && at + 1 <= |s|
    ensures s[at := w[0]] == Splice(s, at, w)
  {
  }

  /** A splice that covers the whole sequence is the new content. */
  lemma SpliceAll<T>(s: seq<T>, w: seq<T>)
    requires |w| == |s|
    ensures Splice(s, 0, w) == w
  {
  }
}
