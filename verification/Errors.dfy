/** The failures the modelled code reports, one constructor a cause. */
module Errors {
  datatype Error =
    | CacheSizeZero
    | ClientFailed
    | TransformFailed
    | SinkFailed
    | NoCommonAncestor
    | SnapshotNotFound(height: nat)
    | NotInCache(height: nat)
    | NoMessagesFor(height: nat)
}
