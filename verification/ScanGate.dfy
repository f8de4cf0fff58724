/**
 The scan-freshness gate of `app-core/src/scan_gate.rs`: two counters and a flag. The
 counters are unbounded here; the drains saturate at zero as in the source.
 */
module Gate {
  /** The three classes of scan the gate counts, and discovery, which it does not. */
  datatype ScanClass = Notebook | Spending | WalletStores | Discovery

  datatype GateView = GateView(notebook: nat, spending: nat, walletStores: bool)

  const OPEN_GATE := GateView(0, 0, false)

  predicate Busy(g: GateView) {
    g.notebook > 0 || g.spending > 0 || g.walletStores
  }

  function Raised(g: GateView, cls: ScanClass): GateView {
    match cls
    case Notebook => g.(notebook := g.notebook + 1)
    case Spending => g.(spending := g.spending + 1)
    case WalletStores => g.(walletStores := true)
    case Discovery => g
  }

  function Drained(g: GateView, cls: ScanClass): GateView {
    match cls
    case Notebook => g.(notebook := if g.notebook > 0 then g.notebook - 1 else 0)
    case Spending => g.(spending := if g.spending > 0 then g.spending - 1 else 0)
    case WalletStores => g.(walletStores := false)
    case Discovery => g
  }

  /** The early returns of the scan kicks: spending and wallet-stores scans are not
      submitted while one of their own class is in flight. */
  predicate Refused(g: GateView, cls: ScanClass) {
    match cls
    case Spending => g.spending > 0
    case WalletStores => g.walletStores
    case _ => false
  }

  class ScanGate {
    var notebook: nat
    var spending: nat
    var walletStores: bool

    function View(): GateView
      reads this
    {
      GateView(notebook, spending, walletStores)
    }

    constructor ()
      ensures View() == OPEN_GATE
    {
      notebook, spending, walletStores := 0, 0, false;
    }

    method AdmitNotebook()
      modifies this
      ensures View() == Raised(old(View()), Notebook)
    {
      notebook := notebook + 1;
    }

    method DrainNotebook()
      modifies this
      ensures View() == Drained(old(View()), Notebook)
    {
      notebook := if notebook > 0 then notebook - 1 else 0;
    }

    method AdmitSpending()
      modifies this
      ensures View() == Raised(old(View()), Spending)
    {
      spending := spending + 1;
    }

    method DrainSpending()
      modifies this
      ensures View() == Drained(old(View()), Spending)
    {
      spending := if spending > 0 then spending - 1 else 0;
    }

    method SetWalletStores(busy: bool)
      modifies this
      ensures View() == old(View()).(walletStores := busy)
    {
      walletStores := busy;
    }
  }
}
