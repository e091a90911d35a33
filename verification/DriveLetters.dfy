/** Drive letters: counting in letters, "a" to "z", then "aa" and so on. */
module DriveLetters {
  import opened Addresses

  function Digit(k: int): char
    requires 0 <= k < 26
  {
    'a' + (k as char)
  }

  function Value(c: char): (r: int)
    requires 'a' <= c <= 'z'
    ensures 1 <= r <= 26
  {
    (c as int) - ('a' as int) + 1
  }

  /** The letters of a number, with digits from 1 to 26 instead of 0 to 25. */
  function Letters(num: nat): string {
    if num == 0 then "" else Letters((num - 1) / 26) + [Digit((num - 1) % 26)]
  }

  /** The words that are drive letters. */
  predicate IsLetters(w: string) {
    forall i :: 0 <= i < |w| ==> 'a' <= w[i] <= 'z'
  }

  /** The number a word stands for. */
  function Decode(w: string): nat
    requires IsLetters(w)
  {
    if w == "" then 0 else 26 * Decode(w[..|w| - 1]) + Value(w[|w| - 1])
  }

  /** Add one with carry: the last letter moves on, "z" starts over and carries. */
  function Succ(w: string): string
    requires IsLetters(w)
  {
    if w == "" then "a"
    else
      var init, last := w[..|w| - 1], w[|w| - 1];
      if last == 'z' then Succ(init) + "a" else init + [Digit(Value(last))]
  }

  class DriveLetter {
    var num: UInt

    constructor ()
      ensures num == 1
    {
      num := 1;
    }

    /** Builds the word from its last letter backwards. */
    method String() returns (dev: string)
      ensures dev == Letters(num)
    {
      var n: nat := num;
      dev := "";
      assert Letters(num) == Letters(n) + dev;
      while n > 0
        invariant Letters(num) == Letters(n) + dev
      {
        assert Letters(n) + dev == Letters((n - 1) / 26) + ([Digit((n - 1) % 26)] + dev);
        dev := [Digit((n - 1) % 26)] + dev;
        n := (n - 1) / 26;
      }
    }

    /** LettersSucc says how this shows in letters. */
    method Inc()
      modifies this
      ensures num == if old(num) + 1 == TWO_TO_64 then 0 else old(num) + 1
    {
      num := if num + 1 == TWO_TO_64 then 0 else num + 1;
    }
  }

  /** Letters maps the positive numbers one-to-one onto the nonempty words; Decode inverts it. */
  lemma {:induction false} DecodeLetters(num: nat)
    ensures IsLetters(Letters(num)) && Decode(Letters(num)) == num
    ensures Letters(num) == "" <==> num == 0
  {
    if num != 0 {
      var q, r := (num - 1) / 26, (num - 1) % 26;
      DecodeLetters(q);
      var w := Letters(num);
      assert w == Letters(q) + [Digit(r)];
      assert w[..|w| - 1] == Letters(q) && Value(w[|w| - 1]) == r + 1;
    }
  }

  lemma {:induction false} LettersDecode(w: string)
    requires IsLetters(w)
    ensures Letters(Decode(w)) == w
  {
    if w != "" {
      var init, last := w[..|w| - 1], w[|w| - 1];
      LettersDecode(init);
      assert Decode(w) - 1 == 26 * Decode(init) + (Value(last) - 1);
      assert (Decode(w) - 1) / 26 == Decode(init) && (Decode(w) - 1) % 26 == Value(last) - 1;
      assert w == init + [last];
    }
  }

  lemma {:induction false} LettersInjective(a: nat, b: nat)
    ensures Letters(a) == Letters(b) <==> a == b
  {
    DecodeLetters(a);
    DecodeLetters(b);
  }

  lemma {:induction false} SuccAppend(init: string, k: nat)
    requires IsLetters(init) && k < 26
    ensures IsLetters(init + [Digit(k)])
    ensures Succ(init + [Digit(k)]) == if k == 25 then Succ(init) + "a" else init + [Digit(k + 1)]
  {
    var w := init + [Digit(k)];
    assert w[..|w| - 1] == init && Value(w[|w| - 1]) == k + 1;
  }

  /** One more in a place, or the next place. */
  lemma {:induction false} NextPlace(num: nat)
    requires num > 0
    ensures var q, r := (num - 1) / 26, (num - 1) % 26;
            && num / 26 == (if r == 25 then q + 1 else q) && num % 26 == (if r == 25 then 0 else r + 1)
  {
    assert num == 26 * ((num - 1) / 26) + (num - 1) % 26 + 1;
  }

  lemma {:induction false} LettersNext(num: nat)
    requires num > 0
    ensures Letters(num) == Letters((num - 1) / 26) + [Digit((num - 1) % 26)]
  {
  }

  /** Counting on in numbers is adding one with carry on words, for every number. */
  lemma {:induction false} LettersSucc(num: nat)
    ensures IsLetters(Letters(num)) && Letters(num + 1) == Succ(Letters(num))
  {
    if num == 0 {
      assert Letters(0) == "";
      assert Letters(1) == [Digit(0)];
    } else {
      var q, r := (num - 1) / 26, (num - 1) % 26;
      LettersSucc(q);
      SuccAppend(Letters(q), r);
      NextPlace(num);
      LettersNext(num);
      LettersNext(num + 1);
    }
  }
}
