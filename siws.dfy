/** The sign-in-with-wallet message, built identically by the browser before
    signing and by the server before verifying. */
module Siws {
  import opened Wrappers
  import Strings

  /** The part that is always present: domain, the account line, the nonce. */
  function BaseMessage(domain: string, walletAddress: string, nonce: string): string {
    domain + " wants you to sign in with your Solana account:\n" + walletAddress + "\n\nNonce: " + nonce
  }

  /** `buildSignInMessage`: the issued-at line is added only for a present,
      non-empty `issuedAt` (an empty string is falsy). */
  function BuildSignInMessage(domain: string, walletAddress: string, nonce: string,
                              issuedAt: Option<string>): (m: string)
    ensures issuedAt.None? || issuedAt.value == "" ==> m == BaseMessage(domain, walletAddress, nonce)
    ensures issuedAt.Some? && issuedAt.value != "" ==>
      m == BaseMessage(domain, walletAddress, nonce) + "\nIssued At: " + issuedAt.value
  {
    var message := BaseMessage(domain, walletAddress, nonce);
    if issuedAt.Some? && issuedAt.value != "" then message + "\nIssued At: " + issuedAt.value
    else message
  }

  /** An empty `issuedAt` signs the same text as an absent one, and the base
      message always starts the full message. */
  lemma BaseIsPrefix(domain: string, walletAddress: string, nonce: string, issuedAt: Option<string>)
    ensures var base := BaseMessage(domain, walletAddress, nonce);
      var m := BuildSignInMessage(domain, walletAddress, nonce, issuedAt);
      && |base| <= |m| && m[..|base|] == base
      && BuildSignInMessage(domain, walletAddress, nonce, Some("")) == BuildSignInMessage(domain, walletAddress, nonce, None)
  {
    var base := BaseMessage(domain, walletAddress, nonce);
    var m := BuildSignInMessage(domain, walletAddress, nonce, issuedAt);
    if issuedAt.Some? && issuedAt.value != "" {
      assert m == base + ("\nIssued At: " + issuedAt.value);
    }
  }

  /** A signature over one message cannot be replayed for another nonce or
      another issued-at: for a fixed domain and wallet the message determines
      both (the issued-at line compared as present and non-empty or not). */
  lemma SignInMessageInjective(domain: string, walletAddress: string,
                               n1: string, i1: Option<string>, n2: string, i2: Option<string>)
    requires BuildSignInMessage(domain, walletAddress, n1, i1) == BuildSignInMessage(domain, walletAddress, n2, i2)
    requires i1.Some? == i2.Some?
    requires i1.Some? ==> i1.value != "" && i2.value != ""
    requires '\n' !in n1 && '\n' !in n2
    ensures n1 == n2 && i1 == i2
  {
    var head := domain + " wants you to sign in with your Solana account:\n" + walletAddress + "\n\nNonce: ";
    var m := BuildSignInMessage(domain, walletAddress, n1, i1);
    assert BaseMessage(domain, walletAddress, n1) == head + n1;
    assert BaseMessage(domain, walletAddress, n2) == head + n2;
    if i1.None? {
      assert m == head + n1 && m == head + n2;
      assert n1 == m[|head|..] == n2;
    } else {
      var t1 := "\nIssued At: " + i1.value;
      var t2 := "\nIssued At: " + i2.value;
      assert m == head + (n1 + t1) && m == head + (n2 + t2);
      var rest := m[|head|..];
      assert rest == n1 + t1 && rest == n2 + t2;
      NewlineSplit(n1, t1, n2, t2);
      assert t1[12..] == i1.value && t2[12..] == i2.value;
    }
  }

  /** The text up to the first newline of a newline-free head followed by a
      text that starts with a newline is that head. */
  lemma {:induction false} FirstLineOf(a: string, t: string)
    requires '\n' !in a && |t| > 0 && t[0] == '\n'
    ensures Strings.FirstField(a + t, '\n') == a
  {
    if a != [] {
      assert (a + t)[1..] == a[1..] + t;
      FirstLineOf(a[1..], t);
    }
  }

  /** A newline-free head followed by a text starting with a newline splits
      in one way only. */
  lemma NewlineSplit(a: string, t: string, b: string, u: string)
    requires '\n' !in a && '\n' !in b
    requires |t| > 0 && t[0] == '\n' && |u| > 0 && u[0] == '\n'
    requires a + t == b + u
    ensures a == b && t == u
  {
    FirstLineOf(a, t);
    FirstLineOf(b, u);
    var s := a + t;
    assert t == s[|a|..] && u == s[|b|..];
  }
}
