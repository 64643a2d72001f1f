/** The generator of message ids: a random decimal string, counted up digit by digit. */
module MsgIds {

  const MSG_ID_LENGTH: nat := 20

  predicate IsDigits(s: string) {
    forall i :: 0 <= i < |s| ==> '0' <= s[i] <= '9'
  }

  predicate AllNines(s: string) {
    forall i :: 0 <= i < |s| ==> s[i] == '9'
  }

  function Digit(c: char): (d: nat)
    requires '0' <= c <= '9'
    ensures d <= 9
  {
    c as int - '0' as int
  }

  /** The number a decimal string stands for. */
  function Value(s: string): nat
    requires IsDigits(s)
  {
    if s == "" then 0 else 10 * Value(s[..|s| - 1]) + Digit(s[|s| - 1])
  }

  function Pow10(n: nat): (p: nat)
    ensures p > 0
  {
    if n == 0 then 1 else 10 * Pow10(n - 1)
  }

  function Repeat(c: char, n: nat): (s: string)
    ensures |s| == n && forall i :: 0 <= i < n ==> s[i] == c
  {
    seq(n, _ => c)
  }

  /** The rightmost digit below nine goes up by one, and the nines behind it become zeros. */
  function Succ(s: string): (r: string)
    requires IsDigits(s) && !AllNines(s)
    ensures |r| == |s| && IsDigits(r)
  {
    var init, last := s[..|s| - 1], s[|s| - 1];
    if last != '9' then init + [(last as int + 1) as char] else Succ(init) + "0"
  }

  lemma {:induction false} SuccAddsOne(s: string)
    requires IsDigits(s) && !AllNines(s)
    ensures Value(Succ(s)) == Value(s) + 1
    decreases |s|
  {
    var init, last, r := s[..|s| - 1], s[|s| - 1], Succ(s);
    if last != '9' {
      assert r[..|s| - 1] == init;
    } else {
      SuccAddsOne(init);
      assert r[..|s| - 1] == Succ(init);
    }
  }

  lemma {:induction false} ValueInRange(s: string)
    requires IsDigits(s)
    ensures Value(s) < Pow10(|s|)
    ensures AllNines(s) <==> Value(s) + 1 == Pow10(|s|)
    decreases |s|
  {
    if s != "" {
      var init := s[..|s| - 1];
      ValueInRange(init);
      assert AllNines(s) <==> AllNines(init) && s[|s| - 1] == '9';
    }
  }

  /** The n-th id after s. */
  function Later(s: string, n: nat): (r: string)
    requires IsDigits(s) && Value(s) + n < Pow10(|s|)
    ensures IsDigits(r) && |r| == |s| && Value(r) == Value(s) + n
    decreases n
  {
    if n == 0 then s
    else
      var r := Later(s, n - 1);
      ValueInRange(r);
      SuccAddsOne(r);
      Succ(r)
  }

  /** All ids from one seed up to all nines are different, and grow. */
  lemma IdsAreDistinct(s: string, i: nat, j: nat)
    requires IsDigits(s) && i < j && Value(s) + j < Pow10(|s|)
    ensures Value(Later(s, i)) < Value(Later(s, j)) && Later(s, i) != Later(s, j)
  {
  }

  /** Nines at the end of s turn to zeros, and the rest is counted up on its own. */
  lemma {:induction false} SuccSkipsNines(s: string, i: nat)
    requires IsDigits(s) && i < |s| && s[i] != '9'
    requires forall k :: i < k < |s| ==> s[k] == '9'
    ensures Succ(s) == s[..i] + [(s[i] as int + 1) as char] + Repeat('0', |s| - i - 1)
    decreases |s|
  {
    if i < |s| - 1 {
      SuccSkipsNines(s[..|s| - 1], i);
      assert Repeat('0', |s| - i - 1) == Repeat('0', |s| - i - 2) + "0";
    }
  }

  class MsgIdUtils {
    var curMsgIdNumber: string
    var maxMsgIdNumber: string

    /** Until a second seed is drawn, both numbers have the same length. */
    ghost predicate Valid()
      reads this
    {
      IsDigits(curMsgIdNumber) && AllNines(maxMsgIdNumber) && |curMsgIdNumber| == |maxMsgIdNumber|
    }

    constructor ()
      ensures Valid() && curMsgIdNumber == ""
    {
      curMsgIdNumber, maxMsgIdNumber := "", "";
    }

    /** random is what read returns from /dev/urandom, if it is called; short reads give "". */
    method GenMsgId(random: seq<int>) returns (id: string)
      requires Valid()
      requires forall i :: 0 <= i < |random| ==> 0 <= random[i] < 256
      modifies this
      ensures old(curMsgIdNumber) != "" && !AllNines(old(curMsgIdNumber)) ==>
                Valid() && id == curMsgIdNumber == Succ(old(curMsgIdNumber)) && maxMsgIdNumber == old(maxMsgIdNumber)
      ensures old(curMsgIdNumber) == "" && |random| == MSG_ID_LENGTH ==> Valid()
      ensures (old(curMsgIdNumber) == "" || AllNines(old(curMsgIdNumber))) && |random| == MSG_ID_LENGTH ==>
                id == curMsgIdNumber && |id| == MSG_ID_LENGTH && IsDigits(id)
                && AllNines(maxMsgIdNumber) && |maxMsgIdNumber| == |old(maxMsgIdNumber)| + MSG_ID_LENGTH
                && forall i :: 0 <= i < MSG_ID_LENGTH ==> Digit(id[i]) == random[i] % 10
      ensures (old(curMsgIdNumber) == "" || AllNines(old(curMsgIdNumber))) && |random| != MSG_ID_LENGTH ==>
                id == "" && curMsgIdNumber == old(curMsgIdNumber) && maxMsgIdNumber == old(maxMsgIdNumber)
    {
      if curMsgIdNumber == "" || curMsgIdNumber == maxMsgIdNumber {
        if |random| != MSG_ID_LENGTH {
          return "";
        }
        var res := "";
        for i := 0 to MSG_ID_LENGTH
          invariant |res| == i && IsDigits(res)
          invariant forall k :: 0 <= k < i ==> Digit(res[k]) == random[k] % 10
          invariant AllNines(maxMsgIdNumber) && |maxMsgIdNumber| == |old(maxMsgIdNumber)| + i
          invariant curMsgIdNumber == old(curMsgIdNumber)
        {
          res := res + [(random[i] % 10 + '0' as int) as char];
          maxMsgIdNumber := maxMsgIdNumber + "9";
        }
        curMsgIdNumber := res;
      } else {
        var i := |curMsgIdNumber| - 1;
        while i >= 0 && curMsgIdNumber[i] == '9'
          invariant -1 <= i < |curMsgIdNumber|
          invariant forall k :: i < k < |curMsgIdNumber| ==> curMsgIdNumber[k] == '9'
          invariant unchanged(this)
        {
          i := i - 1;
        }
        if i >= 0 {
          ghost var s := curMsgIdNumber;
          SuccSkipsNines(s, i);
          curMsgIdNumber := curMsgIdNumber[i := (curMsgIdNumber[i] as int + 1) as char];
          for j := i + 1 to |maxMsgIdNumber|
            invariant |curMsgIdNumber| == |s| && maxMsgIdNumber == old(maxMsgIdNumber)
            invariant curMsgIdNumber[..i + 1] == s[..i] + [(s[i] as int + 1) as char]
            invariant forall k :: i < k < j ==> curMsgIdNumber[k] == '0'
          {
            curMsgIdNumber := curMsgIdNumber[j := '0'];
          }
          assert curMsgIdNumber == curMsgIdNumber[..i + 1] + Repeat('0', |s| - i - 1);
        }
      }
      return curMsgIdNumber;
    }
  }
}
