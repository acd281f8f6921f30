/** The persisted client store of display currencies: a table of currencies and the selected
    one, changed by selecting a code and re-resolved when the persisted state is loaded. */
module CurrencyStore {
  import opened Wrappers

  datatype CurrencyCode = USD | NGN | EUR | USDT | DAN

  /** A display currency; `rate` is the number of units per US dollar. */
  datatype Currency = Currency(code: CurrencyCode, name: string, symbol: string, rate: real)

  const AvailableCurrencies: seq<Currency> := [
    Currency(USD, "currency.names.usd", "$", 1.0),
    Currency(NGN, "currency.names.ngn", "\U{20A6}", 1450.0),
    Currency(EUR, "currency.names.eur", "\U{20AC}", 0.92),
    Currency(USDT, "currency.names.usdt", "\U{20AE}", 1.0),
    Currency(DAN, "currency.names.dan", "DAN", 10.0)
  ]

  predicate HasCode(currencies: seq<Currency>, code: CurrencyCode) {
    exists i :: 0 <= i < |currencies| && currencies[i].code == code
  }

  /** Entry `i` is the first with the code. */
  predicate FirstWithCode(currencies: seq<Currency>, code: CurrencyCode, i: int) {
    0 <= i < |currencies| && currencies[i].code == code && forall j :: 0 <= j < i ==> currencies[j].code != code
  }

  /** `find` by code: the first entry with the code, if any. */
  function FindByCode(currencies: seq<Currency>, code: CurrencyCode): (r: Option<Currency>)
    ensures r.Some? <==> HasCode(currencies, code)
    ensures r.Some? ==> r.value.code == code
    ensures r.Some? ==> exists i :: FirstWithCode(currencies, code, i) && currencies[i] == r.value
  {
    if |currencies| == 0 then None
    else if currencies[0].code == code then Some(currencies[0])
    else
      var tail := currencies[1..];
      var r := FindByCode(tail, code);
      assert HasCode(tail, code) <==> HasCode(currencies, code) by {
        if HasCode(tail, code) {
          var i :| 0 <= i < |tail| && tail[i].code == code;
          assert currencies[i + 1].code == code;
        }
        if HasCode(currencies, code) {
          var i :| 0 <= i < |currencies| && currencies[i].code == code;
          assert tail[i - 1].code == code;
        }
      }
      assert r.Some? ==> exists i :: FirstWithCode(currencies, code, i) && currencies[i] == r.value by {
        if r.Some? {
          var i :| FirstWithCode(tail, code, i) && tail[i] == r.value;
          assert currencies[i + 1] == r.value;
          forall j | 1 <= j < i + 1 ensures currencies[j].code != code {
            assert currencies[j] == tail[j - 1];
          }
          assert FirstWithCode(currencies, code, i + 1);
        }
      }
      r
  }

  predicate CodesDistinct(currencies: seq<Currency>) {
    forall i, j :: 0 <= i < j < |currencies| ==> currencies[i].code != currencies[j].code
  }

  /** Every code appears in the table exactly once. */
  lemma AvailableCodesDistinct()
    ensures CodesDistinct(AvailableCurrencies)
    ensures forall c: CurrencyCode :: HasCode(AvailableCurrencies, c)
  {
    forall c: CurrencyCode ensures HasCode(AvailableCurrencies, c) {
      match c
      case USD => assert AvailableCurrencies[0].code == c;
      case NGN => assert AvailableCurrencies[1].code == c;
      case EUR => assert AvailableCurrencies[2].code == c;
      case USDT => assert AvailableCurrencies[3].code == c;
      case DAN => assert AvailableCurrencies[4].code == c;
    }
  }

  /** With distinct codes the entry `find` returns is the only one with its code. */
  lemma FoundEntryUnique(currencies: seq<Currency>, code: CurrencyCode, k: nat)
    requires CodesDistinct(currencies)
    requires k < |currencies| && currencies[k].code == code
    ensures FindByCode(currencies, code) == Some(currencies[k])
  {
    var c := FindByCode(currencies, code).value;
    var i :| FirstWithCode(currencies, code, i) && currencies[i] == c;
    assert i == k;
  }

  class CurrencyState {
    var currencies: seq<Currency>
    var selectedCurrency: Currency

    /** The selection is an entry of the table. */
    ghost predicate Valid()
      reads this
    {
      selectedCurrency in currencies
    }

    /** The initial state: the whole table, with its first entry (US dollars) selected. */
    constructor ()
      ensures currencies == AvailableCurrencies && selectedCurrency == AvailableCurrencies[0]
      ensures selectedCurrency.code == USD && selectedCurrency.rate == 1.0
      ensures Valid()
    {
      currencies := AvailableCurrencies;
      selectedCurrency := AvailableCurrencies[0];
    }

    /** `setCurrency`: selects the table's entry with the code; an unknown code changes nothing. */
    method SetCurrency(code: CurrencyCode)
      modifies this
      ensures currencies == old(currencies)
      ensures HasCode(currencies, code) ==> selectedCurrency == FindByCode(currencies, code).value
      ensures HasCode(currencies, code) ==> selectedCurrency.code == code && selectedCurrency in currencies
      ensures !HasCode(currencies, code) ==> selectedCurrency == old(selectedCurrency)
      ensures old(Valid()) ==> Valid()
    {
      var newCurrency := FindByCode(currencies, code);
      if newCurrency.Some? {
        selectedCurrency := newCurrency.value;
      }
    }

    /** `onRehydrateStorage`: the selection is replaced by the table's entry with the same
        code, and kept when there is none. */
    method OnRehydrate()
      modifies this
      ensures currencies == old(currencies)
      ensures HasCode(currencies, old(selectedCurrency).code) ==>
        selectedCurrency == FindByCode(currencies, old(selectedCurrency).code).value && Valid()
      ensures !HasCode(currencies, old(selectedCurrency).code) ==> selectedCurrency == old(selectedCurrency)
      ensures selectedCurrency.code == old(selectedCurrency).code
    {
      var persistedCurrency := FindByCode(currencies, selectedCurrency.code);
      if persistedCurrency.Some? {
        selectedCurrency := persistedCurrency.value;
      }
    }

    /** Loading the persisted state: the stored table and selection are merged over the
        current state (they replace both fields), then `OnRehydrate` runs. */
    method Rehydrate(storedCurrencies: seq<Currency>, storedSelected: Currency)
      modifies this
      ensures currencies == storedCurrencies
      ensures HasCode(storedCurrencies, storedSelected.code) ==>
        selectedCurrency == FindByCode(storedCurrencies, storedSelected.code).value && Valid()
      ensures !HasCode(storedCurrencies, storedSelected.code) ==> selectedCurrency == storedSelected
    {
      currencies := storedCurrencies;
      selectedCurrency := storedSelected;
      OnRehydrate();
    }
  }
}
