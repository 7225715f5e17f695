/** The administrator's payment list and its search box. */
module PaymentPage {
  import JsText
  import JsArray

  datatype Payment = Payment(userEmail: string, transactionId: string, amount: int, date: int)

  /** The payer's email or the transaction id contains the search term,
      ignoring case. */
  predicate MatchesSearch(p: Payment, searchTerm: string) {
    || JsText.Includes(JsText.ToLower(p.userEmail), JsText.ToLower(searchTerm))
    || JsText.Includes(JsText.ToLower(p.transactionId), JsText.ToLower(searchTerm))
  }

  /** The filtering effect: `filteredPayments` is recomputed from
      `allPayments` and the current term, never from the previous result. */
  function FilterPayments(allPayments: seq<Payment>, searchTerm: string): (r: seq<Payment>)
    ensures JsArray.IsSubsequence(r, allPayments)
    ensures forall p :: p in r <==> p in allPayments && MatchesSearch(p, searchTerm)
    ensures forall x :: multiset(r)[x] == if MatchesSearch(x, searchTerm) then multiset(allPayments)[x] else 0
    ensures searchTerm == "" ==> r == allPayments
  {
    var keep := (p: Payment) => MatchesSearch(p, searchTerm);
    JsArray.FilterIsSubsequence(allPayments, keep);
    JsArray.FilterKeepsAll(allPayments, keep);
    forall p ensures p in JsArray.Filter(allPayments, keep) <==> p in allPayments && keep(p) {
      JsArray.FilterMembership(allPayments, keep, p);
    }
    forall x ensures multiset(JsArray.Filter(allPayments, keep))[x] == if keep(x) then multiset(allPayments)[x] else 0 {
      JsArray.FilterCounts(allPayments, keep, x);
    }
    JsArray.Filter(allPayments, keep)
  }

  /** Typing more characters only narrows the list: every payment kept for
      `term + more` is kept for `term`. Clearing the box gives back every
      payment. */
  lemma TypingNarrows(allPayments: seq<Payment>, term: string, more: string)
    ensures forall p :: p in FilterPayments(allPayments, term + more) ==> p in FilterPayments(allPayments, term)
    ensures FilterPayments(allPayments, "") == allPayments
  {
    var t, tm := JsText.ToLower(term), JsText.ToLower(term + more);
    JsText.ToLowerAppend(term, more);
    JsText.IncludesPrefix(t, JsText.ToLower(more));
    forall p | p in FilterPayments(allPayments, term + more)
      ensures MatchesSearch(p, term)
    {
      if JsText.Includes(JsText.ToLower(p.userEmail), tm) {
        JsText.IncludesTransitive(JsText.ToLower(p.userEmail), tm, t);
      } else {
        JsText.IncludesTransitive(JsText.ToLower(p.transactionId), tm, t);
      }
    }
  }
}
