/** The two conversions of the `morse` package that `Convert` dispatches to,
    `morse.ToMorse` and `morse.ToText`. Their symbol table is not part of this
    model, so a `Codec` holds them as arbitrary total functions from string to
    string (neither can fail), and every property of the model holds for every
    codec. */
module Morse {

  datatype Codec = Codec(toMorse: string -> string, toText: string -> string)
}
