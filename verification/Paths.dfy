/** What a system can come to: sequences of states, each of which may follow the one before. */
module Paths {

  ghost predicate Path<S>(next: (S, S) -> bool, ss: seq<S>) {
    |ss| > 0 && forall i, j :: 0 <= i < j < |ss| && j == i + 1 ==> next(ss[i], ss[j])
  }

  ghost predicate Reaches<S(!new)>(next: (S, S) -> bool, s: S, s': S) {
    exists ss :: Path(next, ss) && ss[0] == s && ss[|ss| - 1] == s'
  }

  lemma Stays<S(!new)>(next: (S, S) -> bool, s: S)
    ensures Reaches(next, s, s)
  {
    assert Path(next, [s]);
  }

  lemma Joined<S(!new)>(next: (S, S) -> bool, s: S, s': S, s'': S)
    requires Reaches(next, s, s') && Reaches(next, s', s'')
    ensures Reaches(next, s, s'')
  {
    var xs :| Path(next, xs) && xs[0] == s && xs[|xs| - 1] == s';
    var ys :| Path(next, ys) && ys[0] == s' && ys[|ys| - 1] == s'';
    var zs := xs + ys[1..];
    forall i, j | 0 <= i < j < |zs| && j == i + 1 ensures next(zs[i], zs[j]) {
      if j < |xs| {
        assert zs[i] == xs[i] && zs[j] == xs[j];
      } else {
        var y := j - |xs| + 1;
        assert zs[j] == ys[y] && zs[i] == ys[y - 1];
      }
    }
    assert Path(next, zs) && zs[|zs| - 1] == s'';
  }

  lemma Precede<S(!new)>(next: (S, S) -> bool, s: S, s': S, s'': S)
    requires next(s, s') && Reaches(next, s', s'')
    ensures Reaches(next, s, s'')
  {
    assert Path(next, [s, s']);
    Joined(next, s, s', s'');
  }
}
