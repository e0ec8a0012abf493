/** The Russian plural of "пост" chosen for each per-channel count of the summary. */
module Plural {
  /** The three forms: "пост", "поста", "постов". */
  datatype Form = One | Few | Many

  /**
   * The form for a count: one for 1, 21, 31, …; few for 2–4, 22–24, …;
   * many for the rest, the teens 11–14 included.
   */
  function FormOf(count: nat): (f: Form)
    ensures f == One <==> count % 10 == 1 && count % 100 != 11
    ensures f == Few <==> 2 <= count % 10 <= 4 && !(12 <= count % 100 <= 14)
  {
    FormOfDigits(count % 10, count % 100)
  }

  /** The rule on the last digit and the last two digits. */
  function FormOfDigits(last: nat, lastTwo: nat): Form {
    if last == 1 && lastTwo != 11 then One
    else if 2 <= last <= 4 && !(12 <= lastTwo <= 14) then Few
    else Many
  }

  function Word(f: Form): string {
    match f
    case One => "пост"
    case Few => "поста"
    case Many => "постов"
  }

  /** The three forms are spelled differently, so the word determines the form. */
  lemma WordsDistinct(f: Form, g: Form)
    ensures Word(f) == Word(g) <==> f == g
  {
    assert |Word(One)| == 4 && |Word(Few)| == 5 && |Word(Many)| == 6;
  }

  /** The word printed after a channel's count in the summary. */
  function PostsWord(count: nat): string {
    Word(FormOf(count))
  }

  /** The form depends only on the last two digits. */
  lemma PostsWordPeriodic(count: nat)
    ensures FormOf(count + 100) == FormOf(count)
    ensures PostsWord(count + 100) == PostsWord(count)
  {
    ShiftKeepsDigits(count);
  }

  lemma ShiftKeepsDigits(n: nat)
    ensures (n + 100) % 10 == n % 10 && (n + 100) % 100 == n % 100
  {
    ModUnique(n + 100, 100, n / 100 + 1, n % 100);
    ModUnique(n + 100, 10, n / 10 + 10, n % 10);
  }

  /** The last digit is the last digit of the last two. */
  lemma LastDigitOfLastTwo(n: nat)
    ensures n % 10 == (n % 100) % 10
  {
    var r := n % 100;
    ModUnique(n, 10, 10 * (n / 100) + r / 10, r % 10);
  }

  /** `m` is the remainder of `n` by `b` once `n` is written as `b * k + m`. */
  lemma ModUnique(n: int, b: int, k: int, m: int)
    requires (b == 10 || b == 100) && n == b * k + m && 0 <= m < b
    ensures n % b == m
  {
  }

  /** Any count ending in 11–14 takes "постов". */
  lemma TeensTakeGenitivePlural(count: nat)
    requires 11 <= count % 100 <= 14
    ensures FormOf(count) == Many && PostsWord(count) == "постов"
  {
    LastDigitOfLastTwo(count);
  }
}
