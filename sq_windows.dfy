/** The window tables of src/sq_windows.c. The coefficient formulas (a raised cosine for
    Hann and Hamming) are not modelled: `hann` and `hamming` stand for the values
    sq_window_hann(n, length) and sq_window_hamming(n, length). */
module SqWindows {
  import opened SqConstants

  datatype WindowKind = Hann | Hamming

  /** The outcome of looking a window name up. */
  datatype Lookup = Found(kind: WindowKind) | Unknown

  /** The strcmp dispatch of sq_make_window_from_name: "hann", then "hamming", else unknown. */
  function LookupWindow(name: string): (r: Lookup)
  {
    if name == "hann" then Found(Hann)
    else if name == "hamming" then Found(Hamming)
    else Unknown
  }

  /** Exactly two names are accepted, each naming its own window. */
  lemma LookupAccepts(name: string)
    ensures LookupWindow(name).Found? <==> name == "hann" || name == "hamming"
    ensures LookupWindow(name) == Found(Hann) <==> name == "hann"
    ensures LookupWindow(name) == Found(Hamming) <==> name == "hamming"
  {
  }

  /** "sine/cosine", listed in the usage text of the window program, is not accepted. */
  lemma SineCosineRejected()
    ensures LookupWindow("sine/cosine") == Unknown
  {
    assert "sine/cosine"[0] != "hann"[0];
    assert "sine/cosine"[0] != "hamming"[0];
  }

  /** length coefficients of a window function, entry n being f(n, length). */
  function Table(f: (nat, nat) -> real, length: nat): (t: seq<real>)
    ensures |t| == length && forall n :: 0 <= n < length ==> t[n] == f(n, length)
  {
    seq(length, n requires 0 <= n < length => f(n, length))
  }

  /** The coefficient function a window kind names. */
  function Coefficients(kind: WindowKind, hann: (nat, nat) -> real, hamming: (nat, nat) -> real): (nat, nat) -> real
  {
    match kind
    case Hann => hann
    case Hamming => hamming
  }

  /** sq_make_window as evidently intended: entry n is window_function(n, length);
      entries from length on are left as they were. */
  method MakeWindowIntended(window_buffer: array<real>, length: nat, window_function: (nat, nat) -> real)
    requires length <= window_buffer.Length
    modifies window_buffer
    ensures window_buffer[..length] == Table(window_function, length)
    ensures window_buffer[length..] == old(window_buffer[length..])
  {
    var n := 0;
    while n < length
      invariant 0 <= n <= length
      invariant forall i :: 0 <= i < n ==> window_buffer[i] == window_function(i, length)
      invariant window_buffer[n..] == old(window_buffer[n..])
    {
      window_buffer[n] := window_function(n, length);
      n := n + 1;
    }
  }

  /** sq_make_window as written: window_function is never called; the loop fills the
      Hann coefficients, which is the intended loop run with hann. */
  method MakeWindow(window_buffer: array<real>, length: nat, window_function: (nat, nat) -> real,
                    hann: (nat, nat) -> real)
    requires length <= window_buffer.Length
    modifies window_buffer
    ensures window_buffer[..length] == Table(hann, length)
    ensures window_buffer[length..] == old(window_buffer[length..])
  {
    MakeWindowIntended(window_buffer, length, hann);
  }

  /** sq_make_window_from_name as written: an unknown name gives ERR_UNKNOWN_WINDOW and
      leaves the buffer alone; a known one gives 0 and the Hann table, whatever the name. */
  method MakeWindowFromName(window_buffer: array<real>, length: nat, window_name: string,
                            hann: (nat, nat) -> real, hamming: (nat, nat) -> real)
    returns (status: int)
    requires length <= window_buffer.Length
    modifies window_buffer
    ensures LookupWindow(window_name) == Unknown ==>
              status == ERR_UNKNOWN_WINDOW && window_buffer[..] == old(window_buffer[..])
    ensures LookupWindow(window_name).Found? ==>
              status == 0 && window_buffer[..length] == Table(hann, length)
              && window_buffer[length..] == old(window_buffer[length..])
  {
    var found := LookupWindow(window_name);
    if found == Unknown {
      return ERR_UNKNOWN_WINDOW;
    }
    var window_function := Coefficients(found.kind, hann, hamming);
    MakeWindow(window_buffer, length, window_function, hann);
    return 0;
  }

  /** sq_make_window_from_name with the intended sq_make_window: the table of the window
      the name selects. */
  method MakeWindowFromNameIntended(window_buffer: array<real>, length: nat, window_name: string,
                                    hann: (nat, nat) -> real, hamming: (nat, nat) -> real)
    returns (status: int)
    requires length <= window_buffer.Length
    modifies window_buffer
    ensures LookupWindow(window_name) == Unknown ==>
              status == ERR_UNKNOWN_WINDOW && window_buffer[..] == old(window_buffer[..])
    ensures LookupWindow(window_name).Found? ==>
              status == 0
              && window_buffer[..length] == Table(Coefficients(LookupWindow(window_name).kind, hann, hamming), length)
              && window_buffer[length..] == old(window_buffer[length..])
  {
    var found := LookupWindow(window_name);
    if found == Unknown {
      return ERR_UNKNOWN_WINDOW;
    }
    MakeWindowIntended(window_buffer, length, Coefficients(found.kind, hann, hamming));
    return 0;
  }

  /** As written, a known name always gets the Hann table: where the Hamming and Hann
      coefficients differ, "hamming" does not get the Hamming table. */
  lemma HammingWritesHann(length: nat, hann: (nat, nat) -> real, hamming: (nat, nat) -> real, n: nat)
    requires n < length && hann(n, length) != hamming(n, length)
    ensures LookupWindow("hamming") == Found(Hamming)
    ensures Table(hann, length) != Table(Coefficients(Hamming, hann, hamming), length)
  {
    assert Table(hann, length)[n] != Table(hamming, length)[n];
  }

  /** With the intended sq_make_window, the two names give different tables as soon as the
      coefficients differ anywhere, and each name gives its own window. */
  lemma IntendedTablesDiffer(length: nat, hann: (nat, nat) -> real, hamming: (nat, nat) -> real, n: nat)
    requires n < length && hann(n, length) != hamming(n, length)
    ensures Table(Coefficients(Hann, hann, hamming), length) == Table(hann, length)
    ensures Table(Coefficients(Hamming, hann, hamming), length) == Table(hamming, length)
    ensures Table(Coefficients(Hamming, hann, hamming), length) != Table(Coefficients(Hann, hann, hamming), length)
  {
    assert Table(hann, length)[n] != Table(hamming, length)[n];
  }
}
