/** The "blacklist" field validator of the user module
    (modules/user/validator.go): a non-empty field must match
    ^[^'"\[\]<>\{\}]+$ as a whole; the empty field is accepted. */
module UserValidator {
  /** The characters the user validator refuses. */
  const Refused: set<char> := {'\'', '"', '[', ']', '<', '>', '{', '}'}

  /** Whether the anchored pattern ^[^...]+$ matches the whole of `s`: one
      or more characters, none of them refused. */
  function MatchesWhole(s: string): (r: bool)
    ensures r <==> |s| > 0 && forall i :: 0 <= i < |s| ==> s[i] !in Refused
  {
    if |s| == 0 then false
    else if |s| == 1 then s[0] !in Refused
    else s[0] !in Refused && MatchesWhole(s[1..])
  }

  /** The validator: the empty field passes, any other must match. So a
      field passes exactly when it holds no refused character. */
  function BlacklistValidation(field: string): (ok: bool)
    ensures ok <==> forall i :: 0 <= i < |field| ==> field[i] !in Refused
    ensures field == "" ==> ok
  {
    if field == "" then true else MatchesWhole(field)
  }

  /** Accepted fields are closed under concatenation and under taking any
      slice. */
  lemma AcceptedClosed(a: string, b: string, i: nat, j: nat)
    requires BlacklistValidation(a) && BlacklistValidation(b)
    requires i <= j <= |a|
    ensures BlacklistValidation(a + b)
    ensures BlacklistValidation(a[i..j])
  {
    assert forall k :: 0 <= k < |a + b| ==> (a + b)[k] == if k < |a| then a[k] else b[k - |a|];
    assert forall k :: 0 <= k < j - i ==> a[i..j][k] == a[i + k];
  }

  /** '/', '\' and ':' are not refused: a field made of them passes. */
  lemma SeparatorsAccepted(field: string)
    requires forall i :: 0 <= i < |field| ==> field[i] in {'/', '\\', ':'}
    ensures BlacklistValidation(field)
  {
  }
}

/** The "blacklist" field validator of the movie module
    (modules/movie/validator.go): a field is refused when the unanchored
    pattern [<>'"[\]{}\/\\:]+ finds a match anywhere in it; the empty field is
    accepted. */
module MovieValidator {
  import UserValidator

  /** The characters the movie validator refuses. */
  const Refused: set<char> := {'<', '>', '\'', '"', '[', ']', '{', '}', '/', '\\', ':'}

  /** Whether the unanchored pattern [...]+ finds a match in `s`: some
      character of `s` is refused. */
  function FindsMatch(s: string): (r: bool)
    ensures r <==> exists i :: 0 <= i < |s| && s[i] in Refused
  {
    if |s| == 0 then false
    else if s[0] in Refused then true
    else
      var r := FindsMatch(s[1..]);
      assert forall i :: 1 <= i < |s| ==> s[i] == s[1..][i - 1];
      r
  }

  /** The validator: the empty field passes, any other passes when the
      pattern finds no match. So a field passes exactly when it holds no
      refused character. */
  function BlacklistValidation(field: string): (ok: bool)
    ensures ok <==> forall i :: 0 <= i < |field| ==> field[i] !in Refused
    ensures field == "" ==> ok
  {
    if field == "" then true else !FindsMatch(field)
  }

  /** Accepted fields are closed under concatenation. */
  lemma AcceptedConcat(a: string, b: string)
    requires BlacklistValidation(a) && BlacklistValidation(b)
    ensures BlacklistValidation(a + b)
  {
    assert forall k :: 0 <= k < |a + b| ==> (a + b)[k] == if k < |a| then a[k] else b[k - |a|];
  }

  /** Every field the movie validator accepts the user validator accepts
      too, but not conversely: the movie validator also refuses '/', '\'
      and ':'. */
  lemma StricterThanUser(field: string)
    requires BlacklistValidation(field)
    ensures UserValidator.BlacklistValidation(field)
    ensures UserValidator.BlacklistValidation("a/b") && !BlacklistValidation("a/b")
  {
    forall i | 0 <= i < |field| ensures field[i] !in UserValidator.Refused {
      assert field[i] !in Refused;
    }
    assert "a/b"[1] == '/';
  }
}
