/**
 * The static tables of `config/java_aliases.py`: which Maven coordinates an
 * import prefix stands for, the versions known to resolve, and the licenses
 * those coordinates are known to carry. The alias table is a sequence in
 * dict order, like the license table.
 */
module JavaAliases {
  import opened Strings

  /** Maven `(groupId, artifactId)`. */
  type Coordinates = (string, string)

  /** Import prefixes for JSON and serialization. */
  const JsonAliases: seq<(string, Coordinates)> := [
    ("com.google.gson", ("com.google.code.gson", "gson")),
    ("com.fasterxml.jackson", ("com.fasterxml.jackson.core", "jackson-databind")),
    ("org.json", ("org.json", "json"))
  ]

  /** Import prefixes for Apache Commons and SLF4J bindings. */
  const CommonsAliases: seq<(string, Coordinates)> := [
    ("org.apache.commons.lang3", ("org.apache.commons", "commons-lang3")),
    ("org.apache.commons", ("org.apache.commons", "commons-lang3")),
    ("org.slf4j.impl", ("org.slf4j", "slf4j-simple")),
    ("org.apache.logging.log4j.core", ("org.apache.logging.log4j", "log4j-core")),
    ("org.apache.commons.io", ("org.apache.commons", "commons-io")),
    ("org.apache.commons.codec", ("commons-codec", "commons-codec")),
    ("org.apache.commons.collections4", ("org.apache.commons", "commons-collections4"))
  ]

  /** Import prefixes for logging. */
  const LoggingAliases: seq<(string, Coordinates)> := [
    ("org.slf4j", ("org.slf4j", "slf4j-api")),
    ("ch.qos.logback", ("ch.qos.logback", "logback-classic")),
    ("org.apache.logging.log4j", ("org.apache.logging.log4j", "log4j-core"))
  ]

  /** Import prefixes for testing. */
  const TestingAliases: seq<(string, Coordinates)> := [
    ("org.junit", ("junit", "junit")),
    ("org.junit.jupiter", ("org.junit.jupiter", "junit-jupiter-api")),
    ("org.mockito", ("org.mockito", "mockito-core"))
  ]

  /** Import prefixes for the Spring Framework. */
  const SpringAliases: seq<(string, Coordinates)> := [
    ("org.springframework", ("org.springframework", "spring-context")),
    ("org.springframework.boot", ("org.springframework.boot", "spring-boot-starter")),
    ("org.springframework.web", ("org.springframework", "spring-web"))
  ]

  /** Import prefixes for databases and ORM. */
  const DatabaseAliases: seq<(string, Coordinates)> := [
    ("org.hibernate", ("org.hibernate", "hibernate-core")),
    ("javax.persistence", ("javax.persistence", "javax.persistence-api")),
    ("com.zaxxer.hikari", ("com.zaxxer", "HikariCP"))
  ]

  /** Import prefixes for web and HTTP clients. */
  const HttpAliases: seq<(string, Coordinates)> := [
    ("org.apache.http", ("org.apache.httpcomponents", "httpclient")),
    ("okhttp3", ("com.squareup.okhttp3", "okhttp")),
    ("retrofit2", ("com.squareup.retrofit2", "retrofit"))
  ]

  /** Import prefixes for Google libraries. */
  const GoogleAliases: seq<(string, Coordinates)> := [
    ("com.google.common", ("com.google.guava", "guava")),
    ("com.google.api.client", ("com.google.api-client", "google-api-client"))
  ]

  /** Import prefixes for the AWS SDK. */
  const AwsAliases: seq<(string, Coordinates)> := [
    ("com.amazonaws.services.s3", ("com.amazonaws", "aws-java-sdk-s3")),
    ("com.amazonaws.auth", ("com.amazonaws", "aws-java-sdk-core"))
  ]

  /** Import prefixes for XML and data formats. */
  const XmlAliases: seq<(string, Coordinates)> := [
    ("javax.xml.parsers", ("javax.xml", "javax.xml.parsers")),
    ("javax.xml.bind", ("javax.xml.bind", "jaxb-api"))
  ]

  /** Import prefixes for Kotlin interop, JSON schema validation and the rest. */
  const OtherAliases: seq<(string, Coordinates)> := [
    ("kotlin.jvm", ("org.jetbrains.kotlin", "kotlin-stdlib")),
    ("com.networknt.schema", ("com.networknt", "json-schema-validator")),
    ("javax.servlet", ("javax.servlet", "javax.servlet-api")),
    ("jakarta.servlet", ("jakarta.servlet", "jakarta.servlet-api")),
    ("org.flywaydb.core", ("org.flywaydb", "flyway-core"))
  ]

  /** `JAVA_IMPORT_ALIASES`: import prefix to coordinates, in dict order. */
  const ImportAliases: seq<(string, Coordinates)> :=
    JsonAliases + CommonsAliases + LoggingAliases + TestingAliases + SpringAliases + DatabaseAliases
    + HttpAliases + GoogleAliases + AwsAliases + XmlAliases + OtherAliases

  /** `KNOWN_GOOD_JAVA_VERSIONS`: `group:artifact` to a version known to resolve. */
  const KnownGoodVersions: map<string, string> := map[
    "com.fasterxml.jackson.core:jackson-databind" := "2.15.0",
    "com.google.code.gson:gson" := "2.10.1",
    "org.slf4j:slf4j-api" := "1.7.36",
    "org.junit.jupiter:junit-jupiter-api" := "5.9.3",
    "com.squareup.okhttp3:okhttp" := "4.12.0",
    "org.apache.commons:commons-lang3" := "3.12.0"
  ]

  /** `TRUSTED_LICENSES`: `group:artifact` to a license asserted for it. */
  const TrustedLicenses: map<string, string> := map[
    "org.slf4j:slf4j-api" := "MIT",
    "org.apache.commons:commons-lang3" := "Apache-2.0"
  ]

  /** The `group:artifact` text the source builds from coordinates. */
  function CoordinateKey(c: Coordinates): string {
    c.0 + ":" + c.1
  }

  /** Every entry of the table comes from one of its sections. */
  lemma EntriesBySection(e: (string, Coordinates))
    requires e in ImportAliases
    ensures e in JsonAliases || e in CommonsAliases || e in LoggingAliases || e in TestingAliases
         || e in SpringAliases || e in DatabaseAliases || e in HttpAliases || e in GoogleAliases
         || e in AwsAliases || e in XmlAliases || e in OtherAliases
  {
  }

  /** `k` is the `group:artifact` text of coordinates some import prefix resolves to. */
  ghost predicate IsAliasedKey(k: string) {
    exists i :: 0 <= i < |ImportAliases| && CoordinateKey(ImportAliases[i].1) == k
  }

  lemma GsonIsAliased(k: string)
    requires k == "com.google.code.gson:gson"
    ensures IsAliasedKey(k)
  {
    assert ImportAliases[0] == JsonAliases[0];
    assert CoordinateKey(JsonAliases[0].1) == k;
  }

  lemma JacksonIsAliased(k: string)
    requires k == "com.fasterxml.jackson.core:jackson-databind"
    ensures IsAliasedKey(k)
  {
    assert ImportAliases[1] == JsonAliases[1];
    assert CoordinateKey(JsonAliases[1].1) == k;
  }

  lemma CommonsLangIsAliased(k: string)
    requires k == "org.apache.commons:commons-lang3"
    ensures IsAliasedKey(k)
  {
    assert ImportAliases[4] == CommonsAliases[1];
    assert CoordinateKey(CommonsAliases[1].1) == k;
  }

  lemma Slf4jIsAliased(k: string)
    requires k == "org.slf4j:slf4j-api"
    ensures IsAliasedKey(k)
  {
    assert ImportAliases[10] == LoggingAliases[0];
    assert CoordinateKey(LoggingAliases[0].1) == k;
  }

  lemma JupiterIsAliased(k: string)
    requires k == "org.junit.jupiter:junit-jupiter-api"
    ensures IsAliasedKey(k)
  {
    assert ImportAliases[14] == TestingAliases[1];
    assert CoordinateKey(TestingAliases[1].1) == k;
  }

  lemma OkHttpIsAliased(k: string)
    requires k == "com.squareup.okhttp3:okhttp"
    ensures IsAliasedKey(k)
  {
    assert ImportAliases[23] == HttpAliases[1];
    assert CoordinateKey(HttpAliases[1].1) == k;
  }

  /** Every known-good version belongs to coordinates some import prefix resolves to. */
  lemma KnownGoodVersionsAreAliased()
    ensures forall k :: k in KnownGoodVersions ==> IsAliasedKey(k)
  {
    forall k | k in KnownGoodVersions
      ensures IsAliasedKey(k)
    {
      if k == "com.google.code.gson:gson" {
        GsonIsAliased(k);
      } else if k == "com.fasterxml.jackson.core:jackson-databind" {
        JacksonIsAliased(k);
      } else if k == "org.apache.commons:commons-lang3" {
        CommonsLangIsAliased(k);
      } else if k == "org.slf4j:slf4j-api" {
        Slf4jIsAliased(k);
      } else if k == "org.junit.jupiter:junit-jupiter-api" {
        JupiterIsAliased(k);
      } else if k == "com.squareup.okhttp3:okhttp" {
        OkHttpIsAliased(k);
      }
    }
  }

  /** Every coordinate with a trusted license also has a known-good version. */
  lemma TrustedLicensesHaveKnownVersions()
    ensures TrustedLicenses.Keys <= KnownGoodVersions.Keys
  {
  }

  /**
   * Three import prefixes are proper prefixes of longer ones that resolve
   * elsewhere, so the choice among matching prefixes matters.
   */
  lemma NestedPrefixes()
    ensures CommonsAliases[1].0 < CommonsAliases[4].0 && CommonsAliases[1].1 != CommonsAliases[4].1
    ensures LoggingAliases[0].0 < CommonsAliases[2].0 && LoggingAliases[0].1 != CommonsAliases[2].1
    ensures TestingAliases[0].0 < TestingAliases[1].0 && TestingAliases[0].1 != TestingAliases[1].1
  {
  }
}
