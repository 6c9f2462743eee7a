/** WriteTarget: where one batch is written, tagged by its target type. */
module WriteTargets {
  import opened Wrappers
  import opened Paths

  /** TargetType: the two destinations of a topic mapping. */
  datatype TargetType = Local | S3

  /** WriteTarget.local(path) and WriteTarget.s3(bucket, key). */
  datatype WriteTarget = LocalTarget(path: Path) | S3Target(bucket: string, key: string) {

    /** type() */
    function Kind(): TargetType {
      if LocalTarget? then Local else S3
    }

    /** localPath(), null for an S3 target. */
    function LocalPath(): Option<Path> {
      if LocalTarget? then Some(path) else None
    }

    /** bucket(), null for a local target. */
    function Bucket(): Option<string> {
      if S3Target? then Some(bucket) else None
    }

    /** key(), null for a local target. */
    function Key(): Option<string> {
      if S3Target? then Some(key) else None
    }
  }

  /** local(p) has type LOCAL, local path p, and neither bucket nor key. */
  lemma LocalFactory(p: Path)
    ensures LocalTarget(p).Kind() == Local && LocalTarget(p).LocalPath() == Some(p)
    ensures LocalTarget(p).Bucket() == None && LocalTarget(p).Key() == None
  {
  }

  /** s3(b, k) has type S3, bucket b, key k, and no local path. */
  lemma S3Factory(b: string, k: string)
    ensures S3Target(b, k).Kind() == S3 && S3Target(b, k).Bucket() == Some(b) && S3Target(b, k).Key() == Some(k)
    ensures S3Target(b, k).LocalPath() == None
  {
  }

  /** The type tag alone tells which fields are present, and the present
      fields determine the target. */
  lemma TagDecidesFields(t: WriteTarget, u: WriteTarget)
    ensures t.Kind() == Local <==> t.LocalPath().Some?
    ensures t.Kind() == S3 <==> t.Bucket().Some? && t.Key().Some?
    ensures (t.Kind() == u.Kind() && t.LocalPath() == u.LocalPath() && t.Bucket() == u.Bucket()
              && t.Key() == u.Key()) ==> t == u
  {
  }
}
