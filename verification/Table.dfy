/** Who sits where: the neighbour and chopstick helpers shared by the three programs under
    pthreads_dp. Philosophers and chopsticks are numbered `0 .. N - 1`. */
module Table {

  function LeftPhil(N: nat, i: nat): (r: nat)
    requires i < N
    ensures r < N
  {
    if i == N - 1 then 0 else i + 1
  }

  function RightPhil(N: nat, i: nat): (r: nat)
    requires i < N
    ensures r < N
  {
    if i == 0 then N - 1 else i - 1
  }

  function LeftChop(N: nat, i: nat): (r: nat)
    requires i < N
    ensures r < N
  {
    i
  }

  function RightChop(N: nat, i: nat): (r: nat)
    requires i < N
    ensures r < N
  {
    if i == 0 then N - 1 else i - 1
  }

  /** A chopstick lies between exactly two philosophers: the one with its number and that one's left
      neighbour. */
  lemma SharedBy(N: nat, c: nat, i: nat)
    requires 2 <= N && c < N && i < N
    ensures LeftChop(N, i) != RightChop(N, i)
    ensures LeftChop(N, i) == c <==> i == c
    ensures RightChop(N, i) == c <==> i == LeftPhil(N, c)
    ensures LeftPhil(N, RightPhil(N, i)) == i && RightPhil(N, LeftPhil(N, i)) == i
  {
  }
}
