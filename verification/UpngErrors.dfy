/** The decoder's error codes that its inflater, filters and chunk scans set. */
module UpngErrors {
  datatype UpngError = EOK | EMALFORMED | EUNSUPPORTED
}
