/** The library's error codes (enum dsc_error_t). Every public operation
    reports exactly one of them; here each operation returns it instead of
    writing a process-wide slot. */
module DscError {

  datatype Error =
    | None             // DSC_ERROR_NONE
    | InvalidArgument  // DSC_ERROR_INVALID_ARGUMENT: null handle or bad parameter
    | OutOfRange       // DSC_ERROR_OUT_OF_RANGE: index outside the live elements
    | OutOfMemory      // DSC_ERROR_OUT_OF_MEMORY: the buffer cannot be (re)allocated
    | EmptyContainer   // DSC_ERROR_EMPTY_CONTAINER: operation needs an element
    | NotFound         // DSC_ERROR_NOT_FOUND: used by the hash containers only
    | DuplicateItem    // DSC_ERROR_DUPLICATE_ITEM: used by the hash containers only
}
