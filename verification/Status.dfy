/** Status codes the DSP side returns (AEE_*). */
module Status {
  datatype Status =
    | Success
    | BadParm         // AEE_EBADPARM
    | BadItem         // AEE_EBADITEM
    | IncompleteItem  // AEE_EINCOMPLETEITEM
    | NoMemory        // AEE_ENOMEMORY
    | WouldBlock      // AEE_EWOULDBLOCK
    | Failed          // AEE_EFAILED

  datatype Option<+T> = None | Some(value: T)
}
