/** Return codes. */
module Codes {
  /** The codes of include/rave/errno.h that the modelled functions return. Undefined is not one
      of them: it marks a write through a null pointer or past the code buffer, where the C
      program has no defined behaviour. */
  datatype Rc = Success | ETransform | ESegNotLoadable | Undefined
}
