/** The limits that PNG and JPEG images share. */
module ImageLimits {

  /** The ceiling of `inspect_attachment_bytes`. */
  const MAX_INSPECTION_BYTES: nat := 67_108_864

  datatype Limits = Limits(maxWidth: nat, maxHeight: nat, maxPixels: nat)

  datatype Reason = UnsafePng | UnsafeJpeg | ImageLimitExceeded

  /** `_check_image_limits`. */
  predicate WithinLimits(limits: Limits, dimensions: (nat, nat)) {
    dimensions.0 <= limits.maxWidth && dimensions.1 <= limits.maxHeight && dimensions.0 * dimensions.1 <= limits.maxPixels
  }
}
