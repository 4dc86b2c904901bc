/** The domain transition matrix: one word per source domain, one bit per destination. */
module Domains {
  import opened Bits
  import opened Widths

  const MAX_DOMAINS: nat := 8

  ghost function Identity(): set<(nat, nat)> { set d: nat | d < MAX_DOMAINS :: (d, d) }

  /** A row stands for the destinations its bits name. */
  ghost predicate RowShows<T>(bit: (T, nat) -> bool, row: T, a: nat, edges: set<(nat, nat)>) {
    forall b: nat {:trigger bit(row, b)} :: b < MAX_DOMAINS ==> (bit(row, b) <==> (a, b) in edges)
  }

  lemma AddToRow<T>(bit: (T, nat) -> bool, row: T, row': T, a: nat, b: nat, edges: set<(nat, nat)>)
    requires b < MAX_DOMAINS && RowShows(bit, row, a, edges) && IsWrite(bit, row, b, true, row')
    ensures RowShows(bit, row', a, edges + {(a, b)})
  {
    forall c: nat | c < MAX_DOMAINS ensures bit(row', c) <==> (a, c) in edges + {(a, b)} {
      assert c != b ==> bit(row', c) == bit(row, c);
    }
  }

  lemma OwnBit<T>(bit: (T, nat) -> bool, zero: T, row: T, a: nat)
    requires a < MAX_DOMAINS && IsWrite(bit, zero, a, true, row) && forall b: nat :: !bit(zero, b)
    ensures RowShows(bit, row, a, Identity())
  {
    forall b: nat | b < MAX_DOMAINS ensures bit(row, b) <==> (a, b) in Identity() {
      assert b != a ==> bit(row, b) == bit(zero, b);
    }
  }

  method OneBit(b: nat) returns (w: bv32)
    requires b < 32
    ensures IsWrite(Bit, 0, b, true, w)
  {
    w := 1 << b;
    SetWord(0, b);
    OrZero(1 << b);
  }

  method WithBit(row: bv32, b: nat) returns (w: bv32)
    requires b < 32
    ensures IsWrite(Bit, row, b, true, w)
  {
    w := row | (1 << b);
    SetWord(row, b);
  }

  lemma OrZero(w: bv32)
    ensures 0 | w == w
  {}

  class Matrix {
    const rows: array<bv32>
    var isSealed: bool
    ghost var edges: set<(nat, nat)>

    ghost predicate Valid()
      reads this, rows
    {
      && rows.Length == MAX_DOMAINS
      && (forall e :: e in edges ==> e.0 < MAX_DOMAINS && e.1 < MAX_DOMAINS)
      && forall a :: 0 <= a < MAX_DOMAINS ==> RowShows(Bit, rows[a], a, edges)
    }

    constructor ()
      ensures Valid() && fresh(rows) && !isSealed && edges == Identity()
    {
      rows := new bv32[MAX_DOMAINS](_ => 0);
      edges := Identity();
      isSealed := false;
      new;
      for i := 0 to MAX_DOMAINS
        modifies rows
        invariant forall a :: 0 <= a < i ==> RowShows(Bit, rows[a], a, edges)
      {
        var row := OneBit(i);
        ZeroWord();
        OwnBit(Bit, 0, row, i);
        rows[i] := row;
      }
    }

    /** Domains outside the matrix reach nothing. */
    method EdgeAllowed(a: Word, b: Word) returns (ok: bool)
      requires Valid()
      ensures ok <==> (a, b) in edges
    {
      if a >= MAX_DOMAINS || b >= MAX_DOMAINS { return false; }
      assert RowShows(Bit, rows[a], a, edges);
      ok := Bit(rows[a], b);
    }

    method SetEdge(a: Word, b: Word) returns (rv: int)
      requires Valid()
      modifies this, rows
      ensures Valid() && isSealed == old(isSealed)
      ensures rv == if a >= MAX_DOMAINS || b >= MAX_DOMAINS then -1 else if old(isSealed) then -2 else 0
      ensures edges == if rv == 0 then old(edges) + {(a, b)} else old(edges)
    {
      if a >= MAX_DOMAINS || b >= MAX_DOMAINS { return -1; }
      if isSealed { return -2; }
      ghost var was := edges;
      var row := WithBit(rows[a], b);
      AddToRow(Bit, rows[a], row, a, b, edges);
      rows[a] := row;
      edges := edges + {(a, b)};
      forall c | 0 <= c < MAX_DOMAINS && c != a ensures RowShows(Bit, rows[c], c, edges) {
        assert RowShows(Bit, rows[c], c, was);
      }
      return 0;
    }

    method Seal()
      requires Valid()
      modifies `isSealed
      ensures Valid() && isSealed
    {
      if !isSealed { isSealed := true; }
    }
  }
}
