/** Strings in memory that a NUL ends. */
module CStrings {

  // The C string at `p`.
  function CString(mem: string, p: nat): string
    requires p <= |mem|
    decreases |mem| - p
  {
    if p == |mem| || mem[p] == '\0' then [] else [mem[p]] + CString(mem, p + 1)
  }

  lemma {:induction false} CStringIs(mem: string, p: nat, q: nat)
    requires p <= q < |mem| && mem[q] == '\0' && '\0' !in mem[p..q]
    ensures CString(mem, p) == mem[p..q]
    decreases q - p
  {
    if p < q {
      assert mem[p] == mem[p..q][0];
      assert mem[p + 1..q] == mem[p..q][1..];
      CStringIs(mem, p + 1, q);
    }
  }
}
