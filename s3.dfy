/**
 * S3 object addresses shared by the raw-to-trusted handlers: an event record
 * names an object by its bucket and key, and a write names the bucket it
 * lands in.
 */
module S3 {
  /** One object named by an S3 event record. */
  datatype ObjectRef = ObjectRef(bucket: string, key: string)

  /** One put_object call: the bucket and key written, and the body. */
  datatype PutObject = PutObject(bucket: string, key: string, body: string)
}
